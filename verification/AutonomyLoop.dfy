/** Goal pursuit: the progress meter, the bounded plan loop, its transaction, and validation strikes. */
module AutonomyLoop {
  import opened Wrappers
  import Sequences

  type Cap = string

  const FULL: int := 100          // progress 1.0, in hundredths
  const GATE: int := 90           // the most progress without an output step
  const RETRY: int := 85          // progress after a failed validation
  const MAX_STRIKES: nat := 5
  const MAX_CONSECUTIVE: nat := 4

  /** The capabilities worth 0.20, which are also those that count as output. */
  const OUTPUT_CAPS: set<Cap> :=
    {"memory_set", "fs_write", "wrap_repo", "shared_log_write", "propose_change", "synthesize_capability",
     "vote_on_proposal"}

  datatype GoalStatus = Active | Completed | Abandoned

  datatype Goal = Goal(progress: int, hasOutput: bool, lastCap: Option<Cap>, steps: nat, strikes: nat,
                       status: GoalStatus)

  const NEW_GOAL: Goal := Goal(0, false, None, 0, 0, Active)

  // ---------- the progress meter ----------

  /** One executed step: which capability ran, and whether it succeeded. */
  datatype Exec = Exec(cap: Cap, success: bool)

  function Min(a: int, b: int): int {
    if a < b then a else b
  }

  function Delta(g: Goal, e: Exec): int {
    if !e.success then 0
    else if g.lastCap == Some(e.cap) then 2
    else if e.cap in OUTPUT_CAPS then 20 else 10
  }

  function Stepped(g: Goal, e: Exec): Goal {
    var output := g.hasOutput || (e.success && e.cap in OUTPUT_CAPS);
    g.(progress := Min(if output then FULL else GATE, g.progress + Delta(g, e)),
       hasOutput := output,
       lastCap := if e.success then Some(e.cap) else g.lastCap,
       steps := g.steps + 1)
  }

  function SteppedAll(g: Goal, es: seq<Exec>): Goal {
    if es == [] then g else Stepped(SteppedAll(g, es[..|es| - 1]), es[|es| - 1])
  }

  /** The meter reads 0..100, and full only past the output gate. */
  ghost predicate Metered(g: Goal) {
    0 <= g.progress <= FULL && (g.progress > GATE ==> g.hasOutput)
  }

  lemma {:induction false} SteppedStaysMetered(g: Goal, es: seq<Exec>)
    requires Metered(g)
    ensures Metered(SteppedAll(g, es))
    ensures SteppedAll(g, es).status == g.status && SteppedAll(g, es).strikes == g.strikes
  {
    if es != [] {
      SteppedStaysMetered(g, es[..|es| - 1]);
    }
  }

  lemma {:induction false} SteppedKeeps(g: Goal, es: seq<Exec>)
    ensures SteppedAll(g, es).status == g.status && SteppedAll(g, es).strikes == g.strikes
  {
    if es != [] {
      SteppedKeeps(g, es[..|es| - 1]);
    }
  }

  lemma SteppedSnoc(g: Goal, es: seq<Exec>, more: seq<Exec>)
    requires |more| <= 1
    ensures SteppedAll(g, es + more) == SteppedAll(SteppedAll(g, es), more)
  {
    if more == [] {
      assert es + more == es;
    } else {
      assert (es + more)[..|es|] == es && more[..0] == [];
    }
  }

  /** A step is worth at most 0.20. */
  lemma {:induction false} StepsBoundProgress(g: Goal, es: seq<Exec>)
    requires Metered(g)
    ensures SteppedAll(g, es).progress <= g.progress + 20 * |es|
  {
    if es != [] {
      StepsBoundProgress(g, es[..|es| - 1]);
    }
  }

  /** No new goal is full in fewer than five steps. */
  lemma FiveStepsNeeded(es: seq<Exec>)
    requires SteppedAll(NEW_GOAL, es).progress >= FULL
    ensures |es| >= 5
  {
    StepsBoundProgress(NEW_GOAL, es);
  }

  /** Some five steps fill it. */
  lemma FiveStepsSuffice() returns (es: seq<Exec>)
    ensures |es| == 5 && SteppedAll(NEW_GOAL, es).progress == FULL
  {
    var a, b := Exec("memory_set", true), Exec("fs_write", true);
    es := [a, b, a, b, a];
    var g1 := Stepped(NEW_GOAL, a);
    var g2 := Stepped(g1, b);
    var g3 := Stepped(g2, a);
    var g4 := Stepped(g3, b);
    assert es[..4] == [a, b, a, b] && es[..4][..3] == [a, b, a] && es[..4][..3][..2] == [a, b];
    assert [a, b][..1] == [a] && [a][..0] == [];
    assert SteppedAll(NEW_GOAL, [a]) == g1;
    assert SteppedAll(NEW_GOAL, [a, b]) == g2;
    assert SteppedAll(NEW_GOAL, [a, b, a]) == g3;
    assert SteppedAll(NEW_GOAL, [a, b, a, b]) == g4;
  }

  /** With the gate closed only a successful output step opens it; until then the meter stops at 0.90. */
  lemma {:induction false} GateHolds(g: Goal, es: seq<Exec>)
    requires !g.hasOutput && g.progress <= GATE
    requires forall k :: 0 <= k < |es| ==> !(es[k].success && es[k].cap in OUTPUT_CAPS)
    ensures !SteppedAll(g, es).hasOutput && SteppedAll(g, es).progress <= GATE
  {
    if es != [] {
      GateHolds(g, es[..|es| - 1]);
    }
  }

  // ---------- what the steps are worth ----------

  /** The last success before step `i` was by `cap`; before the first it is what the goal remembers. */
  ghost predicate LastBy(g: Goal, es: seq<Exec>, i: nat, cap: Cap)
    requires i <= |es|
  {
    (exists j :: 0 <= j < i && LastSuccess(es, i, j) && es[j].cap == cap) ||
    ((forall j :: 0 <= j < i ==> !es[j].success) && g.lastCap == Some(cap))
  }

  ghost predicate LastSuccess(es: seq<Exec>, i: nat, j: nat)
    requires j < i <= |es|
  {
    es[j].success && forall k :: j < k < i ==> !es[k].success
  }

  /** The steps that repeat the capability of the success before them. */
  ghost function Repeated(g: Goal, es: seq<Exec>): set<nat> {
    set i: nat | i < |es| && es[i].success && LastBy(g, es, i, es[i].cap)
  }

  /** The other successes, by an output capability or not. */
  ghost function Varied(g: Goal, es: seq<Exec>, output: bool): set<nat> {
    set i: nat | i < |es| && IsVaried(g, es, i, output)
  }

  ghost predicate IsVaried(g: Goal, es: seq<Exec>, i: nat, output: bool)
    requires i < |es|
  {
    es[i].success && !LastBy(g, es, i, es[i].cap) && (es[i].cap in OUTPUT_CAPS <==> output)
  }

  ghost function WorthOf(g: Goal, es: seq<Exec>): int {
    20 * |Varied(g, es, true)| + 10 * |Varied(g, es, false)| + 2 * |Repeated(g, es)|
  }

  lemma {:induction false} LastCapIs(g: Goal, es: seq<Exec>, cap: Cap)
    ensures SteppedAll(g, es).lastCap == Some(cap) <==> LastBy(g, es, |es|, cap)
  {
    if es != [] {
      var n := |es| - 1;
      LastCapIs(g, es[..n], cap);
      LastByPrefix(g, es, n, cap);
      if es[n].success {
        assert LastSuccess(es, n + 1, n);
      } else {
        LastByFailure(g, es, n, cap);
      }
    }
  }

  lemma LastByPrefix(g: Goal, es: seq<Exec>, n: nat, cap: Cap)
    requires n <= |es|
    ensures LastBy(g, es[..n], n, cap) <==> LastBy(g, es, n, cap)
  {
    assert forall j :: 0 <= j < n ==> es[..n][j] == es[j];
    if LastBy(g, es, n, cap) && exists j :: 0 <= j < n && LastSuccess(es, n, j) && es[j].cap == cap {
      var j :| 0 <= j < n && LastSuccess(es, n, j) && es[j].cap == cap;
      assert LastSuccess(es[..n], n, j);
    }
    if LastBy(g, es[..n], n, cap) && exists j :: 0 <= j < n && LastSuccess(es[..n], n, j) && es[..n][j].cap == cap {
      var j :| 0 <= j < n && LastSuccess(es[..n], n, j) && es[..n][j].cap == cap;
      assert LastSuccess(es, n, j);
    }
  }

  lemma LastByFailure(g: Goal, es: seq<Exec>, n: nat, cap: Cap)
    requires n < |es| && !es[n].success
    ensures LastBy(g, es, n + 1, cap) <==> LastBy(g, es, n, cap)
  {
    assert forall j :: 0 <= j < n ==> (LastSuccess(es, n + 1, j) <==> LastSuccess(es, n, j));
    assert !(exists j :: n <= j < n + 1 && es[j].success);
  }

  lemma SameInFront(g: Goal, es: seq<Exec>, n: nat, i: nat)
    requires i < n <= |es|
    ensures LastBy(g, es[..n], i, es[i].cap) <==> LastBy(g, es, i, es[i].cap)
  {
    LastByPrefix(g, es, i, es[i].cap);
    LastByPrefix(g, es[..n], i, es[i].cap);
    assert es[..n][..i] == es[..i];
  }

  lemma RepeatedSnoc(g: Goal, es: seq<Exec>, n: nat)
    requires n == |es| - 1
    ensures var repeats := es[n].success && LastBy(g, es, n, es[n].cap);
      |Repeated(g, es)| == |Repeated(g, es[..n])| + if repeats then 1 else 0
  {
    var front, repeats := es[..n], es[n].success && LastBy(g, es, n, es[n].cap);
    forall i: nat | i < n ensures LastBy(g, front, i, es[i].cap) <==> LastBy(g, es, i, es[i].cap) {
      SameInFront(g, es, n, i);
    }
    assert Repeated(g, es) == if repeats then Repeated(g, front) + {n} else Repeated(g, front);
  }

  lemma VariedSnoc(g: Goal, es: seq<Exec>, n: nat, output: bool)
    requires n == |es| - 1
    ensures |Varied(g, es, output)| == |Varied(g, es[..n], output)| + if IsVaried(g, es, n, output) then 1 else 0
  {
    var front := es[..n];
    forall i: nat | i < n ensures IsVaried(g, front, i, output) <==> IsVaried(g, es, i, output) {
      SameInFront(g, es, n, i);
    }
    var more := IsVaried(g, es, n, output);
    assert Varied(g, es, output) == if more then Varied(g, front, output) + {n} else Varied(g, front, output);
  }

  lemma WorthSnoc(g: Goal, es: seq<Exec>)
    requires es != []
    ensures var n := |es| - 1;
      WorthOf(g, es) == WorthOf(g, es[..n]) + Delta(SteppedAll(g, es[..n]), es[n])
  {
    var n := |es| - 1;
    RepeatedSnoc(g, es, n);
    VariedSnoc(g, es, n, true);
    VariedSnoc(g, es, n, false);
    LastCapIs(g, es[..n], es[n].cap);
    LastByPrefix(g, es, n, es[n].cap);
  }

  /**
   * Below the gate nothing is cut off: the meter rises by 0.20 for each success of an output capability, by 0.10 for
   * each of another one, and by 0.02 for each that repeats the capability of the success before it.
   */
  lemma {:induction false} MeterIsSum(g: Goal, es: seq<Exec>)
    requires g.progress + WorthOf(g, es) <= 90
    ensures SteppedAll(g, es).progress == g.progress + WorthOf(g, es)
    ensures SteppedAll(g, es).steps == g.steps + |es|
  {
    if es != [] {
      WorthSnoc(g, es);
      MeterIsSum(g, es[..|es| - 1]);
    } else {
      assert Repeated(g, es) == {} && Varied(g, es, true) == {} && Varied(g, es, false) == {};
    }
  }

  // ---------- one call of the pursuit ----------

  datatype TxnEvent = Began(id: string) | Committed(id: string) | RolledBack(id: string)

  /** How a call ends. */
  datatype Ending = Finished      // validated and completed
                  | Struck        // failed validation, to be retried in a later call
                  | StruckOut     // fifth failed validation
                  | GaveUp        // four failures in a row
                  | RanOut        // out of steps, or no goal to work on

  function Struck1(g: Goal): Goal {
    g.(strikes := g.strikes + 1, progress := RETRY, hasOutput := false)
  }

  /** The goal after a call that began with `start`, executed `execs` and ended as told. */
  function After(start: Goal, execs: seq<Exec>, ending: Ending): Goal {
    var g := SteppedAll(start, execs);
    match ending
    case Finished => g.(status := Completed)
    case Struck => Struck1(g)
    case StruckOut => g.(strikes := g.strikes + 1, status := Abandoned)
    case GaveUp => start.(status := Abandoned)
    case RanOut => g
  }

  /** The progress that a call reports. */
  function Reported(ending: Ending, after: Goal): int {
    match ending
    case Finished => FULL
    case Struck => RETRY
    case StruckOut => 0
    case GaveUp => 0
    case RanOut => after.progress
  }

  /** A call reports the progress of a goal still active, a full one of a completed goal, and none of an abandoned. */
  lemma ReportedIs(start: Goal, execs: seq<Exec>, ending: Ending)
    requires start.status == Active
    ensures var after := After(start, execs, ending);
      Reported(ending, after) == match after.status
                                 case Active => after.progress
                                 case Completed => 100
                                 case Abandoned => 0
  {
    SteppedKeeps(start, execs);
  }

  predicate Validates(ending: Ending) {
    ending.Finished? || ending.Struck? || ending.StruckOut?
  }

  /** What the transaction `id` goes through; a call that runs out on a full goal leaves it open. */
  function TxnLife(id: string, ending: Ending, left: bool): seq<TxnEvent> {
    if Validates(ending) then [Began(id), Committed(id)]
    else if left then [Began(id)] else [Began(id), RolledBack(id)]
  }

  /** What a call may do to its goal: the contract of `PursueGoal`, without the object. */
  ghost predicate Call(start: Goal, after: Goal, execs: seq<Exec>, ending: Ending) {
    after == After(start, execs, ending) &&
    (Validates(ending) ==> SteppedAll(start, execs).progress >= FULL) &&
    (ending.StruckOut? ==> start.strikes + 1 >= MAX_STRIKES) &&
    (ending.Struck? ==> start.strikes + 1 < MAX_STRIKES) &&
    (start.progress < FULL && !Validates(ending) ==> SteppedAll(start, execs).progress < FULL) &&
    (start.progress < FULL ==> NotFullBefore(start, execs))
  }

  /** Before the last of `execs` the goal was never full. */
  ghost predicate NotFullBefore(start: Goal, execs: seq<Exec>) {
    forall k :: 0 <= k < |execs| ==> SteppedAll(start, execs[..k]).progress < FULL
  }

  /** What the world does in one turn of the loop. */
  datatype Turn = Turn(
    phantom: bool,            // the planned capability is not registered, or is disabled
    noGoal: bool,             // no active goal is found
    reasoned: Option<Cap>,    // what single-step reasoning picks when nothing is planned
    rejected: bool,           // the step is refused before it executes
    success: bool,
    hasResult: bool,
    nullFailures: bool,       // the tool has failed with null results across cycles
    newPlan: seq<Option<Cap>>,
    validated: bool)

  function Opened(txn: Option<string>): seq<TxnEvent> {
    if txn.Some? then [Began(txn.value)] else []
  }

  function Closed(txn: Option<string>, ending: Ending): seq<TxnEvent> {
    if txn.None? then [] else if Validates(ending) then [Committed(txn.value)] else [RolledBack(txn.value)]
  }

  lemma TxnEnds(log: seq<TxnEvent>, txn: Option<string>, ending: Ending)
    ensures (log + Opened(txn)) + Closed(txn, ending) ==
      log + if txn.None? then [] else TxnLife(txn.value, ending, false)
  {
  }

  /** The plan and what the call has learnt about it. */
  datatype PlanState = PlanState(plan: seq<Option<Cap>>, index: nat, failures: map<Cap, nat>, consecutive: nat,
                                 blacklisted: seq<Cap>)

  datatype TurnResult = GoOn | NoGoal | Stop(ending: Ending)

  function CountOf(counts: map<Cap, nat>, cap: Cap): nat {
    if cap in counts then counts[cap] else 0
  }

  /** The plan as a call begins: cut to the steps it may take, a single unplanned step if there is none. */
  function FirstState(firstPlan: seq<Option<Cap>>, maxSteps: nat, broken: seq<Cap>): PlanState {
    var plan := if firstPlan == [] then [None] else firstPlan;
    PlanState(plan[..if maxSteps < |plan| then maxSteps else |plan|], 0, map[], 0, broken)
  }

  function Planned(p: PlanState): Option<Cap> {
    if p.index < |p.plan| then p.plan[p.index] else None
  }

  /** A planned capability that is blacklisted, or that the engine does not have, is passed over. */
  predicate Skips(p: PlanState, turn: Turn) {
    Planned(p).Some? && (Planned(p).value in p.blacklisted || turn.phantom)
  }

  function Skipped(p: PlanState, turn: Turn): PlanState
    requires Skips(p, turn)
  {
    var cap, q := Planned(p).value, p.(index := p.index + 1);
    if cap in p.blacklisted then q
    else q.(failures := p.failures[cap := CountOf(p.failures, cap) + 3], blacklisted := p.blacklisted + [cap],
            consecutive := p.consecutive + 1)
  }

  /** A replan keeps the steps already taken and continues with the new ones, if there are any. */
  function Replanned(plan: seq<Option<Cap>>, done: nat, newPlan: seq<Option<Cap>>): seq<Option<Cap>> {
    if newPlan == [] then plan else plan[..if done < |plan| then done else |plan|] + newPlan
  }

  /** A tool that keeps returning nothing, or has failed three times in this call, is not used again in it. */
  function Blacklisted(cap: Option<Cap>, turn: Turn, failureCounts: map<Cap, nat>, blacklisted: seq<Cap>): seq<Cap> {
    if cap.Some? && cap.value !in blacklisted && (turn.nullFailures || CountOf(failureCounts, cap.value) >= 3)
    then blacklisted + [cap.value] else blacklisted
  }

  /** What a call learns from one executed step, and how it replans after a failure. */
  function Recovered(p: PlanState, cap: Option<Cap>, ok: bool, turn: Turn): PlanState {
    if ok then p.(consecutive := if turn.hasResult then 0 else p.consecutive)
    else
      var failures := if cap.None? then p.failures else p.failures[cap.value := CountOf(p.failures, cap.value) + 1];
      var q := p.(consecutive := p.consecutive + 1, failures := failures);
      if q.consecutive >= MAX_CONSECUTIVE then q
      else q.(blacklisted := Blacklisted(cap, turn, failures, p.blacklisted),
              plan := Replanned(p.plan, p.index, turn.newPlan))
  }

  /** What becomes of a turn. */
  datatype Fate = PassedOver      // the planned capability is blacklisted
                | Phantom         // the engine does not have it
                | Goalless        // there is no goal to work on
                | Refused         // nothing to execute, or refused before it executes
                | Executed(exec: Exec)

  function FateOf(p: PlanState, turn: Turn): Fate {
    var cap := Planned(p);
    if cap.Some? && cap.value in p.blacklisted then PassedOver
    else if cap.Some? && turn.phantom then Phantom
    else if turn.noGoal then Goalless
    else
      var chosen := if cap.Some? then cap else turn.reasoned;
      if chosen.None? || turn.rejected then Refused else Executed(Exec(chosen.value, turn.success))
  }

  predicate Fails(f: Fate) {
    f.Refused? || (f.Executed? && !f.exec.success)
  }

  /** A failure, or a turn lost to a capability that does not exist. */
  predicate Misses(f: Fate) {
    f.Phantom? || Fails(f)
  }

  /** A success with a result forgets the misses before it. */
  predicate Clears(f: Fate, turn: Turn) {
    f.Executed? && f.exec.success && turn.hasResult
  }

  function ExecOf(f: Fate): seq<Exec> {
    if f.Executed? then [f.exec] else []
  }

  function Next(p: PlanState, turn: Turn): PlanState {
    if Skips(p, turn) then Skipped(p, turn)
    else Recovered(p.(index := p.index + 1), Planned(p), !Fails(FateOf(p, turn)), turn)
  }

  lemma SkipsIsFate(p: PlanState, turn: Turn)
    ensures Skips(p, turn) <==> FateOf(p, turn).PassedOver? || FateOf(p, turn).Phantom?
    ensures FateOf(p, turn).Goalless? <==> !Skips(p, turn) && turn.noGoal
    ensures Skips(p, turn) ==> Next(p, turn) == Skipped(p, turn)
  {
  }

  /** A turn that finds a goal for what it has to execute. */
  lemma ActsIsFate(p: PlanState, turn: Turn, execs: seq<Exec>, ok: bool)
    requires !Skips(p, turn) && !turn.noGoal && (ok <==> execs != [] && execs[0].success)
    requires var planned := Planned(p);
      execs == if turn.rejected || (planned.None? && turn.reasoned.None?) then []
               else [Exec(if planned.Some? then planned.value else turn.reasoned.value, turn.success)]
    ensures var f := FateOf(p, turn);
      (f.Refused? || f.Executed?) && ExecOf(f) == execs && (Fails(f) <==> !ok)
    ensures Next(p, turn) == Recovered(p.(index := p.index + 1), Planned(p), ok, turn)
  {
  }

  // ---------- the course of a call ----------

  /** The states before and after each turn, and what became of the turns. */
  ghost predicate Trajectory(p: PlanState, turns: seq<Turn>, ps: seq<PlanState>, fs: seq<Fate>) {
    |ps| == |fs| + 1 && |fs| <= |turns| && ps[0] == p &&
    forall i {:trigger fs[i]} :: 0 <= i < |fs| ==> Follows(ps[i], turns[i], fs[i], ps[i + 1])
  }

  predicate Follows(p: PlanState, turn: Turn, f: Fate, q: PlanState) {
    f == FateOf(p, turn) && q == Next(p, turn)
  }

  function Execs(fs: seq<Fate>): seq<Exec> {
    if fs == [] then [] else Execs(fs[..|fs| - 1]) + ExecOf(fs[|fs| - 1])
  }

  predicate GivesUp(ps: seq<PlanState>, fs: seq<Fate>, i: nat)
    requires i < |fs| < |ps|
  {
    Fails(fs[i]) && ps[i + 1].consecutive >= MAX_CONSECUTIVE
  }

  /** After turn `i`, which gets to the completion check, the goal is full. */
  predicate Fills(start: Goal, fs: seq<Fate>, i: nat)
    requires i < |fs|
  {
    (fs[i].Refused? || fs[i].Executed?) && SteppedAll(start, Execs(fs[..i + 1])).progress >= FULL
  }

  predicate GoesOn(start: Goal, ps: seq<PlanState>, fs: seq<Fate>, i: nat)
    requires i < |fs| < |ps|
  {
    !fs[i].Goalless? && !GivesUp(ps, fs, i) && !Fills(start, fs, i)
  }

  function Verdict(validated: bool, strikes: nat): Ending {
    if validated then Finished else if strikes + 1 >= MAX_STRIKES then StruckOut else Struck
  }

  ghost predicate AllGoOn(start: Goal, ps: seq<PlanState>, fs: seq<Fate>, n: int)
    requires n <= |fs| < |ps|
  {
    forall i :: 0 <= i < n ==> GoesOn(start, ps, fs, i)
  }

  /**
   * The call ends as told: after the first turn that gives up or fills the goal, at the first that finds no goal, or
   * when its steps are used up.
   */
  ghost predicate Course(start: Goal, p: PlanState, turns: seq<Turn>, maxSteps: nat, ps: seq<PlanState>, fs: seq<Fate>,
                         steps: nat, ending: Ending)
  {
    Trajectory(p, turns, ps, fs) && |fs| <= maxSteps && AllGoOn(start, ps, fs, |fs| - 1) &&
    if ending.RanOut? then
      if fs != [] && fs[|fs| - 1].Goalless? then steps == |fs| - 1
      else steps == |fs| == maxSteps && AllGoOn(start, ps, fs, |fs|)
    else
      fs != [] && steps == |fs| && !fs[steps - 1].Goalless? &&
      if GivesUp(ps, fs, steps - 1) then ending == GaveUp
      else Fills(start, fs, steps - 1) && ending == Verdict(turns[steps - 1].validated, start.strikes)
  }

  /** Inside the loop all turns went on, but for a last one that found no goal. */
  ghost predicate Begun(start: Goal, p: PlanState, turns: seq<Turn>, ps: seq<PlanState>, fs: seq<Fate>, steps: nat,
                        execs: seq<Exec>, noGoal: bool)
  {
    Trajectory(p, turns, ps, fs) && execs == Execs(fs) && |fs| == (if noGoal then steps + 1 else steps) &&
    AllGoOn(start, ps, fs, steps) && (noGoal ==> fs[steps].Goalless?)
  }

  /** How a turn with that fate, which leaves the state `q`, ends when `execs` have been executed. */
  ghost predicate TurnEnds(start: Goal, turn: Turn, f: Fate, q: PlanState, execs: seq<Exec>, r: TurnResult) {
    var acts := f.Refused? || f.Executed?;
    (r.NoGoal? <==> f.Goalless?) && (r == Stop(GaveUp) <==> Fails(f) && q.consecutive >= MAX_CONSECUTIVE) &&
    (r.GoOn? && acts ==> SteppedAll(start, execs).progress < FULL) &&
    (r.Stop? && r != Stop(GaveUp) ==>
      acts && SteppedAll(start, execs).progress >= FULL && r.ending == Verdict(turn.validated, start.strikes))
  }

  lemma JudgedEnds(start: Goal, turn: Turn, f: Fate, q: PlanState, execs: seq<Exec>, r: TurnResult, hopeless: bool)
    requires f.Refused? || f.Executed?
    requires hopeless <==> Fails(f) && q.consecutive >= MAX_CONSECUTIVE
    requires r == if hopeless then Stop(GaveUp)
                  else if SteppedAll(start, execs).progress < FULL then GoOn
                  else Stop(Verdict(turn.validated, start.strikes))
    ensures TurnEnds(start, turn, f, q, execs, r)
  {
  }

  lemma TrajectoryGrows(p: PlanState, turns: seq<Turn>, ps: seq<PlanState>, fs: seq<Fate>, q: PlanState, f: Fate)
    requires Trajectory(p, turns, ps, fs) && |fs| < |turns|
    requires f == FateOf(ps[|fs|], turns[|fs|]) && q == Next(ps[|fs|], turns[|fs|])
    ensures Trajectory(p, turns, ps + [q], fs + [f])
  {
    var qs, gs := ps + [q], fs + [f];
    forall i {:trigger gs[i]} | 0 <= i < |gs| ensures Follows(qs[i], turns[i], gs[i], qs[i + 1]) {
      if i < |fs| {
        assert gs[i] == fs[i] && qs[i] == ps[i] && qs[i + 1] == ps[i + 1];
      }
    }
  }

  /** Turns that went on still did when there is one more. */
  lemma StillGoOn(start: Goal, ps: seq<PlanState>, fs: seq<Fate>, q: PlanState, f: Fate)
    requires |ps| == |fs| + 1 && AllGoOn(start, ps, fs, |fs|)
    ensures AllGoOn(start, ps + [q], fs + [f], |fs|)
    ensures Execs(fs + [f]) == Execs(fs) + ExecOf(f)
  {
    forall i | 0 <= i < |fs| ensures GoesOn(start, ps + [q], fs + [f], i) {
      assert GoesOn(start, ps, fs, i);
      assert (fs + [f])[..i + 1] == fs[..i + 1];
    }
    assert (fs + [f])[..|fs|] == fs;
  }

  /** One more turn has been taken. */
  lemma TurnTaken(start: Goal, p: PlanState, turns: seq<Turn>, maxSteps: nat, ps: seq<PlanState>, fs: seq<Fate>,
                  q: PlanState, f: Fate, execs: seq<Exec>, r: TurnResult)
    requires Begun(start, p, turns, ps, fs, |fs|, Execs(fs), false) && |fs| < maxSteps <= |turns|
    requires f == FateOf(ps[|fs|], turns[|fs|]) && q == Next(ps[|fs|], turns[|fs|])
    requires execs == Execs(fs) + ExecOf(f) && TurnEnds(start, turns[|fs|], f, q, execs, r)
    ensures var qs, gs := ps + [q], fs + [f];
      (r.GoOn? ==> Begun(start, p, turns, qs, gs, |gs|, execs, false)) &&
      (r.NoGoal? ==> Begun(start, p, turns, qs, gs, |fs|, execs, true)) &&
      (r.Stop? && !r.ending.RanOut? ==>
        Course(start, p, turns, maxSteps, qs, gs, |gs|, r.ending) && execs == Execs(gs))
  {
    TrajectoryGrows(p, turns, ps, fs, q, f);
    StillGoOn(start, ps, fs, q, f);
    TurnJudged(start, turns, ps + [q], fs + [f], |fs|, execs, r);
  }

  lemma TurnJudged(start: Goal, turns: seq<Turn>, qs: seq<PlanState>, gs: seq<Fate>, n: nat, execs: seq<Exec>,
                   r: TurnResult)
    requires |qs| == n + 2 && |gs| == n + 1 && n < |turns| && AllGoOn(start, qs, gs, n) && execs == Execs(gs)
    requires TurnEnds(start, turns[n], gs[n], qs[n + 1], execs, r)
    ensures r.GoOn? ==> AllGoOn(start, qs, gs, n + 1)
    ensures r.Stop? ==>
      !gs[n].Goalless? &&
      if GivesUp(qs, gs, n) then r.ending == GaveUp
      else Fills(start, gs, n) && r.ending == Verdict(turns[n].validated, start.strikes)
  {
    assert gs[..n + 1] == gs;
    if r.GoOn? {
      assert GoesOn(start, qs, gs, n);
    }
  }

  lemma RanOutCourse(start: Goal, p: PlanState, turns: seq<Turn>, maxSteps: nat, ps: seq<PlanState>, fs: seq<Fate>,
                     steps: nat, execs: seq<Exec>, noGoal: bool)
    requires Begun(start, p, turns, ps, fs, steps, execs, noGoal)
    requires if noGoal then steps < maxSteps else steps == maxSteps
    ensures Course(start, p, turns, maxSteps, ps, fs, steps, RanOut)
  {
    if !noGoal && fs != [] {
      assert GoesOn(start, ps, fs, |fs| - 1);
    }
  }

  lemma {:induction false} SameTrajectory(p: PlanState, turns: seq<Turn>, ps: seq<PlanState>, fs: seq<Fate>,
                                          qs: seq<PlanState>, gs: seq<Fate>, n: nat)
    requires Trajectory(p, turns, ps, fs) && Trajectory(p, turns, qs, gs) && n <= |fs| && n <= |gs|
    ensures ps[n] == qs[n] && fs[..n] == gs[..n]
  {
    if n > 0 {
      SameTrajectory(p, turns, ps, fs, qs, gs, n - 1);
      assert fs[n - 1] == gs[n - 1];
      assert fs[..n] == fs[..n - 1] + [fs[n - 1]] && gs[..n] == gs[..n - 1] + [gs[n - 1]];
    }
  }

  /** A course ends with a turn after which the call does not go on, unless its steps are used up. */
  lemma CourseStops(start: Goal, p: PlanState, turns: seq<Turn>, maxSteps: nat, ps: seq<PlanState>, fs: seq<Fate>,
                    steps: nat, ending: Ending)
    requires Course(start, p, turns, maxSteps, ps, fs, steps, ending)
    ensures |fs| == maxSteps || (fs != [] && !GoesOn(start, ps, fs, |fs| - 1))
  {
  }

  lemma SameGoesOn(start: Goal, p: PlanState, turns: seq<Turn>, ps: seq<PlanState>, fs: seq<Fate>,
                   qs: seq<PlanState>, gs: seq<Fate>, i: nat)
    requires Trajectory(p, turns, ps, fs) && Trajectory(p, turns, qs, gs) && i < |fs| && i < |gs|
    ensures GoesOn(start, ps, fs, i) <==> GoesOn(start, qs, gs, i)
  {
    SameTrajectory(p, turns, ps, fs, qs, gs, i + 1);
    assert fs[i] == fs[..i + 1][i] && gs[i] == gs[..i + 1][i];
  }

  /** A turn after which one course goes on is not the last of another. */
  lemma NotLonger(start: Goal, p: PlanState, turns: seq<Turn>, maxSteps: nat, ps: seq<PlanState>, fs: seq<Fate>,
                  qs: seq<PlanState>, gs: seq<Fate>)
    requires Trajectory(p, turns, ps, fs) && Trajectory(p, turns, qs, gs) && |gs| <= maxSteps
    requires |fs| == maxSteps || (fs != [] && !GoesOn(start, ps, fs, |fs| - 1))
    requires forall i :: 0 <= i < |gs| - 1 ==> GoesOn(start, qs, gs, i)
    ensures |gs| <= |fs|
  {
    if fs != [] && |fs| < |gs| {
      SameGoesOn(start, p, turns, ps, fs, qs, gs, |fs| - 1);
    }
  }

  lemma EarlierGoOn(start: Goal, p: PlanState, turns: seq<Turn>, maxSteps: nat, ps: seq<PlanState>, fs: seq<Fate>,
                    steps: nat, ending: Ending)
    requires Course(start, p, turns, maxSteps, ps, fs, steps, ending)
    ensures |fs| <= maxSteps && forall i :: 0 <= i < |fs| - 1 ==> GoesOn(start, ps, fs, i)
  {
  }

  /** What a call does is determined by what it is given. */
  lemma CourseIsUnique(start: Goal, p: PlanState, turns: seq<Turn>, maxSteps: nat, ps: seq<PlanState>, fs: seq<Fate>,
                       steps: nat, ending: Ending, qs: seq<PlanState>, gs: seq<Fate>, steps2: nat, ending2: Ending)
    requires Course(start, p, turns, maxSteps, ps, fs, steps, ending)
    requires Course(start, p, turns, maxSteps, qs, gs, steps2, ending2)
    ensures fs == gs && steps == steps2 && ending == ending2
  {
    CourseStops(start, p, turns, maxSteps, ps, fs, steps, ending);
    CourseStops(start, p, turns, maxSteps, qs, gs, steps2, ending2);
    EarlierGoOn(start, p, turns, maxSteps, ps, fs, steps, ending);
    EarlierGoOn(start, p, turns, maxSteps, qs, gs, steps2, ending2);
    NotLonger(start, p, turns, maxSteps, ps, fs, qs, gs);
    NotLonger(start, p, turns, maxSteps, qs, gs, ps, fs);
    var n := |fs|;
    SameTrajectory(p, turns, ps, fs, qs, gs, n);
    assert fs[..n] == fs && gs[..n] == gs;
    SameEnding(start, turns, maxSteps, ps, qs, fs, steps, ending, steps2, ending2);
  }

  lemma SameEnding(start: Goal, turns: seq<Turn>, maxSteps: nat, ps: seq<PlanState>, qs: seq<PlanState>, fs: seq<Fate>,
                   steps: nat, ending: Ending, steps2: nat, ending2: Ending)
    requires |ps| == |qs| == |fs| + 1 && ps[|fs|] == qs[|fs|]
    requires Course(start, ps[0], turns, maxSteps, ps, fs, steps, ending)
    requires Course(start, qs[0], turns, maxSteps, qs, fs, steps2, ending2)
    ensures steps == steps2 && ending == ending2
  {
    if fs != [] {
      assert GoesOn(start, ps, fs, |fs| - 1) <==> GoesOn(start, qs, fs, |fs| - 1);
    }
  }

  lemma ExecsUpTo(fs: seq<Fate>, i: nat)
    requires i < |fs|
    ensures Execs(fs[..i + 1]) == Execs(fs[..i]) + ExecOf(fs[i])
  {
    assert fs[..i + 1][..i] == fs[..i];
  }

  /** A failure adds nothing to the meter. */
  lemma FailureAddsNothing(start: Goal, fs: seq<Fate>, i: nat)
    requires i < |fs| && (Fails(fs[i]) || ExecOf(fs[i]) == [])
    ensures SteppedAll(start, Execs(fs[..i + 1])).progress <= SteppedAll(start, Execs(fs[..i])).progress
  {
    ExecsUpTo(fs, i);
    SteppedSnoc(start, Execs(fs[..i]), ExecOf(fs[i]));
    var g, more := SteppedAll(start, Execs(fs[..i])), ExecOf(fs[i]);
    if more != [] {
      assert more[..0] == [];
      assert SteppedAll(g, more) == Stepped(g, more[0]);
    }
  }

  predicate Acts(f: Fate) {
    f.Refused? || f.Executed?
  }

  ghost predicate IdleUpTo(fs: seq<Fate>, n: nat)
    requires n <= |fs|
  {
    forall k :: 0 <= k < n ==> !Acts(fs[k])
  }

  ghost predicate FullAfter(start: Goal, fs: seq<Fate>, i: nat)
    requires i <= |fs|
  {
    SteppedAll(start, Execs(fs[..i])).progress >= FULL
  }

  /** What an act makes false and nothing else changes is true in the end when it was and nothing acted. */
  lemma {:induction false} TrueIffIdle(full: nat -> bool, acts: nat -> bool, n: nat)
    requires forall i: nat :: i < n ==> if acts(i) then !full(i + 1) else full(i + 1) == full(i)
    ensures full(n) <==> full(0) && forall i: nat :: i < n ==> !acts(i)
  {
    if n > 0 {
      TrueIffIdle(full, acts, n - 1);
      assert if acts(n - 1) then !full(n - 1 + 1) else full(n - 1 + 1) == full(n - 1);
    }
  }

  lemma GoesOnStep(start: Goal, ps: seq<PlanState>, fs: seq<Fate>, i: nat)
    requires i < |fs| < |ps| && GoesOn(start, ps, fs, i)
    ensures if Acts(fs[i]) then !FullAfter(start, fs, i + 1) else FullAfter(start, fs, i + 1) == FullAfter(start, fs, i)
  {
    ExecsUpTo(fs, i);
    if !Acts(fs[i]) {
      assert Execs(fs[..i]) + [] == Execs(fs[..i]);
    }
  }

  /** While all turns go on, the goal is full exactly when it was and nothing was done. */
  lemma FullIffIdle(start: Goal, ps: seq<PlanState>, fs: seq<Fate>, n: nat)
    requires n <= |fs| < |ps| && AllGoOn(start, ps, fs, n)
    ensures FullAfter(start, fs, n) <==> start.progress >= FULL && IdleUpTo(fs, n)
  {
    var full := (i: nat) => i <= n && FullAfter(start, fs, i);
    var acts := (i: nat) => i < n && Acts(fs[i]);
    forall i: nat | i < n ensures if acts(i) then !full(i + 1) else full(i + 1) == full(i) {
      assert GoesOn(start, ps, fs, i);
      GoesOnStep(start, ps, fs, i);
    }
    TrueIffIdle(full, acts, n);
    assert fs[..0] == [];
    forall k | 0 <= k < n ensures acts(k) <==> Acts(fs[k]) {
    }
  }

  /** What a course does to the goal is what a call may do. */
  lemma CourseIsCall(start: Goal, p: PlanState, turns: seq<Turn>, maxSteps: nat, ps: seq<PlanState>, fs: seq<Fate>,
                     steps: nat, ending: Ending)
    requires Course(start, p, turns, maxSteps, ps, fs, steps, ending)
    ensures Call(start, After(start, Execs(fs), ending), Execs(fs), ending)
  {
    if start.progress < FULL {
      forall k | 0 <= k < |Execs(fs)| ensures SteppedAll(start, Execs(fs)[..k]).progress < FULL {
        var t := ExecOfTurn(fs, k);
        FullIffIdle(start, ps, fs, t);
      }
    }
    assert fs[..|fs|] == fs;
    if ending.RanOut? || ending.GaveUp? {
      UnfinishedIsNotFull(start, p, turns, maxSteps, ps, fs, steps, ending);
    }
  }

  lemma UnfinishedIsNotFull(start: Goal, p: PlanState, turns: seq<Turn>, maxSteps: nat, ps: seq<PlanState>,
                            fs: seq<Fate>, steps: nat, ending: Ending)
    requires Course(start, p, turns, maxSteps, ps, fs, steps, ending) && (ending.RanOut? || ending.GaveUp?)
    ensures start.progress < FULL ==> SteppedAll(start, Execs(fs)).progress < FULL
  {
    assert fs[..|fs|] == fs;
    FullIffIdle(start, ps, fs, if ending.RanOut? then steps else steps - 1);
    if !ending.RanOut? || steps < |fs| {
      FailureAddsNothing(start, fs, |fs| - 1);
    }
  }

  // ---------- when a call gives up ----------

  ghost function MissesSince(fs: seq<Fate>, k: nat, i: nat): set<nat>
    requires i <= |fs|
  {
    set j: nat | k <= j < i && Misses(fs[j])
  }

  /** No turn from `k` up to `i` succeeds with a result. */
  ghost predicate NothingClears(fs: seq<Fate>, turns: seq<Turn>, k: nat, i: nat)
    requires i <= |fs| <= |turns|
  {
    forall j :: k <= j < i ==> !Clears(fs[j], turns[j])
  }

  ghost predicate Counted(ps: seq<PlanState>, fs: seq<Fate>, turns: seq<Turn>)
    requires |ps| == |fs| + 1 && |fs| <= |turns|
  {
    forall i {:trigger fs[i]} :: 0 <= i < |fs| && !fs[i].Goalless? ==>
      ps[i + 1].consecutive ==
        if Clears(fs[i], turns[i]) then 0 else ps[i].consecutive + if Misses(fs[i]) then 1 else 0
  }

  lemma CountNext(p: PlanState, turn: Turn)
    ensures var f := FateOf(p, turn);
      !f.Goalless? ==>
        Next(p, turn).consecutive == if Clears(f, turn) then 0 else p.consecutive + if Misses(f) then 1 else 0
  {
  }

  lemma TrajectoryCounts(p: PlanState, turns: seq<Turn>, ps: seq<PlanState>, fs: seq<Fate>)
    requires Trajectory(p, turns, ps, fs)
    ensures Counted(ps, fs, turns)
  {
    forall i {:trigger fs[i]} | 0 <= i < |fs| && !fs[i].Goalless?
      ensures ps[i + 1].consecutive ==
        if Clears(fs[i], turns[i]) then 0 else ps[i].consecutive + if Misses(fs[i]) then 1 else 0
    {
      CountNext(ps[i], turns[i]);
    }
  }

  /** The count is that of the misses since the last success with a result. */
  lemma {:induction false} CountIsMisses(ps: seq<PlanState>, fs: seq<Fate>, turns: seq<Turn>, i: nat) returns (k: nat)
    requires |ps| == |fs| + 1 && i <= |fs| <= |turns| && Counted(ps, fs, turns) && ps[0].consecutive == 0
    requires forall j :: 0 <= j < i ==> !fs[j].Goalless?
    ensures k <= i && NothingClears(fs, turns, k, i) && (k > 0 ==> Clears(fs[k - 1], turns[k - 1]))
    ensures ps[i].consecutive == |MissesSince(fs, k, i)|
  {
    if i == 0 {
      k := 0;
      assert MissesSince(fs, 0, 0) == {};
    } else {
      k := CountIsMisses(ps, fs, turns, i - 1);
      if Clears(fs[i - 1], turns[i - 1]) {
        k := i;
        assert MissesSince(fs, i, i) == {};
      } else {
        MissesSnoc(fs, k, i - 1);
      }
    }
  }

  lemma MissesSnoc(fs: seq<Fate>, k: nat, i: nat)
    requires k <= i < |fs|
    ensures |MissesSince(fs, k, i + 1)| == |MissesSince(fs, k, i)| + if Misses(fs[i]) then 1 else 0
  {
    assert MissesSince(fs, k, i + 1) ==
      if Misses(fs[i]) then MissesSince(fs, k, i) + {i} else MissesSince(fs, k, i);
  }

  /** Turn `n` fails, and with it there are four misses that no success with a result comes after. */
  ghost predicate FourMisses(fs: seq<Fate>, turns: seq<Turn>, n: nat)
    requires n < |fs| <= |turns|
  {
    Fails(fs[n]) && exists k :: 0 <= k <= n && FourFrom(fs, turns, k, n)
  }

  ghost predicate FourFrom(fs: seq<Fate>, turns: seq<Turn>, k: nat, n: nat)
    requires n < |fs| <= |turns|
  {
    NothingClears(fs, turns, k, n + 1) && |MissesSince(fs, k, n + 1)| >= 4
  }

  lemma GivesUpIffFourMisses(ps: seq<PlanState>, fs: seq<Fate>, turns: seq<Turn>, n: nat)
    requires |ps| == |fs| + 1 && n < |fs| <= |turns| && Counted(ps, fs, turns) && ps[0].consecutive == 0
    requires forall j :: 0 <= j <= n ==> !fs[j].Goalless?
    ensures GivesUp(ps, fs, n) <==> FourMisses(fs, turns, n)
  {
    var k := CountIsMisses(ps, fs, turns, n + 1);
    if FourMisses(fs, turns, n) {
      var m :| 0 <= m <= n && FourFrom(fs, turns, m, n);
      Sequences.SubsetSize(MissesSince(fs, m, n + 1), MissesSince(fs, k, n + 1));
    }
    if GivesUp(ps, fs, n) {
      assert FourFrom(fs, turns, k, n);
    }
  }

  /**
   * A call gives up exactly when its last step fails and is the fourth miss at least that no success with a result
   * comes after; no step before it is one.
   */
  lemma GaveUpIff(start: Goal, p: PlanState, turns: seq<Turn>, maxSteps: nat, ps: seq<PlanState>, fs: seq<Fate>,
                  steps: nat, ending: Ending)
    requires p.consecutive == 0 && Course(start, p, turns, maxSteps, ps, fs, steps, ending)
    ensures steps <= |fs| && (ending.GaveUp? <==> steps > 0 && FourMisses(fs, turns, steps - 1))
    ensures forall i :: 0 <= i < steps - 1 ==> !FourMisses(fs, turns, i)
  {
    TrajectoryCounts(p, turns, ps, fs);
    forall i {:trigger fs[i]} | 0 <= i < steps ensures !fs[i].Goalless? {
      assert i < |fs| - 1 ==> GoesOn(start, ps, fs, i);
    }
    forall i {:trigger FourMisses(fs, turns, i)} | 0 <= i < steps
      ensures GivesUp(ps, fs, i) <==> FourMisses(fs, turns, i)
      ensures i < steps - 1 || ending.RanOut? ==> GoesOn(start, ps, fs, i)
    {
      GivesUpIffFourMisses(ps, fs, turns, i);
    }
  }

  // ---------- what a call executes ----------

  /** Every executed step is that of one turn, in their order, and no other turn executes one. */
  lemma {:induction false} ExecOfTurn(fs: seq<Fate>, k: nat) returns (t: nat)
    requires k < |Execs(fs)|
    ensures t < |fs| && fs[t] == Executed(Execs(fs)[k]) && Execs(fs[..t]) == Execs(fs)[..k]
  {
    var front := fs[..|fs| - 1];
    if k < |Execs(front)| {
      t := ExecOfTurn(front, k);
      assert front[..t] == fs[..t];
    } else {
      t := |fs| - 1;
    }
  }

  /** A turn executes what is planned for it, or what is reasoned if nothing is, unless it is stopped before that. */
  ghost predicate ExecutesPlanned(p: PlanState, turn: Turn, f: Fate) {
    var planned := Planned(p);
    var stopped := turn.noGoal || turn.rejected ||
      if planned.Some? then planned.value in p.blacklisted || turn.phantom else turn.reasoned.None?;
    if stopped then !f.Executed?
    else f == Executed(Exec(if planned.Some? then planned.value else turn.reasoned.value, turn.success))
  }

  lemma FateExecutesPlanned(p: PlanState, turn: Turn)
    ensures ExecutesPlanned(p, turn, FateOf(p, turn))
  {
  }

  lemma TurnsExecutePlanned(p: PlanState, turns: seq<Turn>, ps: seq<PlanState>, fs: seq<Fate>)
    requires Trajectory(p, turns, ps, fs)
    ensures forall i {:trigger fs[i]} :: 0 <= i < |fs| ==> ExecutesPlanned(ps[i], turns[i], fs[i])
  {
    forall i {:trigger fs[i]} | 0 <= i < |fs| ensures ExecutesPlanned(ps[i], turns[i], fs[i]) {
      FateExecutesPlanned(ps[i], turns[i]);
    }
  }

  /** Turn `j` fails and brings a new plan. */
  predicate Replans(fs: seq<Fate>, turns: seq<Turn>, j: nat)
    requires j < |fs| <= |turns|
  {
    Fails(fs[j]) && turns[j].newPlan != []
  }

  /** How the plan goes from turn to turn while the call does not give up. */
  ghost predicate PlansFollow(ps: seq<PlanState>, fs: seq<Fate>, turns: seq<Turn>)
    requires |ps| == |fs| + 1 && |fs| <= |turns|
  {
    forall i {:trigger fs[i]} :: 0 <= i < |fs| && !GivesUp(ps, fs, i) ==> PlanStep(ps[i], turns[i], fs[i], ps[i + 1])
  }

  ghost predicate PlanStep(p: PlanState, turn: Turn, f: Fate, q: PlanState) {
    q.index == p.index + 1 &&
    q.plan == if Fails(f) && turn.newPlan != [] then Replanned(p.plan, p.index + 1, turn.newPlan) else p.plan
  }

  lemma PlanNext(p: PlanState, turn: Turn)
    requires !(Fails(FateOf(p, turn)) && Next(p, turn).consecutive >= MAX_CONSECUTIVE)
    ensures PlanStep(p, turn, FateOf(p, turn), Next(p, turn))
  {
  }

  lemma TrajectoryPlans(p: PlanState, turns: seq<Turn>, ps: seq<PlanState>, fs: seq<Fate>)
    requires Trajectory(p, turns, ps, fs)
    ensures PlansFollow(ps, fs, turns)
  {
    forall i {:trigger fs[i]} | 0 <= i < |fs| && !GivesUp(ps, fs, i)
      ensures PlanStep(ps[i], turns[i], fs[i], ps[i + 1])
    {
      PlanNext(ps[i], turns[i]);
    }
  }

  function Slot(plan: seq<Option<Cap>>, i: nat): Option<Cap> {
    if i < |plan| then plan[i] else None
  }

  /** Turn `j` was the last before turn `i` to replan, or `j` is minus one and none did. */
  ghost predicate LastReplan(fs: seq<Fate>, turns: seq<Turn>, i: nat, j: int)
    requires i <= |fs| <= |turns|
  {
    -1 <= j < i && (j >= 0 ==> Replans(fs, turns, j)) && forall k :: j < k < i ==> !Replans(fs, turns, k)
  }

  lemma SlotOfReplanned(plan: seq<Option<Cap>>, j: nat, newPlan: seq<Option<Cap>>, i: nat)
    requires j <= i && newPlan != []
    ensures Slot(Replanned(plan, j, newPlan), i) == Slot(newPlan, i - j + if |plan| < j then j - |plan| else 0)
  {
  }

  lemma {:induction false} PlanInForce(ps: seq<PlanState>, fs: seq<Fate>, turns: seq<Turn>, i: nat) returns (j: int)
    requires |ps| == |fs| + 1 && i <= |fs| <= |turns| && PlansFollow(ps, fs, turns) && ps[0].index == 0
    requires forall k :: 0 <= k < i ==> !GivesUp(ps, fs, k)
    ensures ps[i].index == i && LastReplan(fs, turns, i, j)
    ensures ps[i].plan == if j < 0 then ps[0].plan else Replanned(ps[j].plan, j + 1, turns[j].newPlan)
  {
    if i == 0 {
      j := -1;
    } else {
      j := PlanInForce(ps, fs, turns, i - 1);
      assert !GivesUp(ps, fs, i - 1);
      assert PlanStep(ps[i - 1], turns[i - 1], fs[i - 1], ps[i]);
      j := if Replans(fs, turns, i - 1) then i - 1 else j;
    }
  }

  /**
   * What is planned for turn `i`: by the first plan its own slot; by a plan made after turn `j` the slot counted from
   * there, except that a plan made when the one before it had run out loses its first slots, one for each turn that
   * was spent beyond the end.
   */
  lemma PlannedAt(p: PlanState, turns: seq<Turn>, ps: seq<PlanState>, fs: seq<Fate>, i: nat) returns (j: int)
    requires p.index == 0 && Trajectory(p, turns, ps, fs) && i <= |fs|
    requires forall k :: 0 <= k < i ==> !GivesUp(ps, fs, k)
    ensures LastReplan(fs, turns, i, j)
    ensures j < 0 ==> Planned(ps[i]) == Slot(p.plan, i)
    ensures j >= 0 ==>
      Planned(ps[i]) ==
      Slot(turns[j].newPlan, i - j - 1 + if |ps[j].plan| <= j then j + 1 - |ps[j].plan| else 0)
  {
    TrajectoryPlans(p, turns, ps, fs);
    j := PlanInForce(ps, fs, turns, i);
    if j >= 0 {
      SlotOfReplanned(ps[j].plan, j + 1, turns[j].newPlan, i);
    }
  }

  /** A new plan starts with its first step exactly when the plan before it had not run out. */
  lemma ReplanStarts(p: PlanState, turns: seq<Turn>, ps: seq<PlanState>, fs: seq<Fate>, j: nat)
    requires p.index == 0 && Trajectory(p, turns, ps, fs) && j < |fs| && Replans(fs, turns, j)
    requires forall k :: 0 <= k <= j ==> !GivesUp(ps, fs, k)
    ensures Planned(ps[j + 1]) == Slot(turns[j].newPlan, if j < |ps[j].plan| then 0 else j + 1 - |ps[j].plan|)
  {
    var l := PlannedAt(p, turns, ps, fs, j + 1);
    assert l == j;
  }

  /** A plan of one step, and a new one of one step made after the second turn: the new step is never planned. */
  lemma NewStepIsLost(turns: seq<Turn>, ps: seq<PlanState>, fs: seq<Fate>, cap: Cap)
    requires |turns| == 3 && |fs| == 3
    requires Trajectory(FirstState([Some("fs_read")], 6, []), turns, ps, fs)
    requires fs[0] == Executed(Exec("fs_read", true)) && Fails(fs[1]) && turns[1].newPlan == [Some(cap)]
    ensures Planned(ps[2]) == None
  {
    assert Follows(ps[0], turns[0], fs[0], ps[1]);
    ReplanStarts(ps[0], turns, ps, fs, 1);
  }

  // ---------- what a call blacklists ----------

  ghost function FailuresOf(ps: seq<PlanState>, fs: seq<Fate>, i: nat, cap: Cap): set<nat>
    requires i <= |fs| < |ps|
  {
    set j: nat | j < i && FailsBy(ps, fs, j, cap)
  }

  predicate FailsBy(ps: seq<PlanState>, fs: seq<Fate>, j: nat, cap: Cap)
    requires j < |fs| < |ps|
  {
    Fails(fs[j]) && Planned(ps[j]) == Some(cap)
  }

  /** At turn `j` the planned capability is found missing, or fails with null results, or for the third time. */
  ghost predicate Breaks(ps: seq<PlanState>, fs: seq<Fate>, turns: seq<Turn>, j: nat, cap: Cap)
    requires j < |fs| < |ps| && |fs| <= |turns|
  {
    Planned(ps[j]) == Some(cap) &&
    (fs[j].Phantom? || (Fails(fs[j]) && (turns[j].nullFailures || |FailuresOf(ps, fs, j + 1, cap)| >= 3)))
  }

  ghost predicate BlacklistFollows(ps: seq<PlanState>, fs: seq<Fate>, turns: seq<Turn>, cap: Cap)
    requires |ps| == |fs| + 1 && |fs| <= |turns|
  {
    forall i {:trigger fs[i]} :: 0 <= i < |fs| && !GivesUp(ps, fs, i) ==>
      BlacklistStep(ps[i], turns[i], fs[i], ps[i + 1], cap)
  }

  ghost predicate BlacklistStep(p: PlanState, turn: Turn, f: Fate, q: PlanState, cap: Cap) {
    var failed := Fails(f) && Planned(p) == Some(cap);
    (cap in q.blacklisted <==>
      cap in p.blacklisted || (Planned(p) == Some(cap) && f.Phantom?) ||
      (failed && (turn.nullFailures || CountOf(p.failures, cap) + 1 >= 3))) &&
    (cap !in q.blacklisted ==> CountOf(q.failures, cap) == CountOf(p.failures, cap) + if failed then 1 else 0) &&
    (failed ==> cap !in p.blacklisted)
  }

  lemma BlacklistNext(p: PlanState, turn: Turn, cap: Cap)
    requires !(Fails(FateOf(p, turn)) && Next(p, turn).consecutive >= MAX_CONSECUTIVE)
    ensures BlacklistStep(p, turn, FateOf(p, turn), Next(p, turn), cap)
  {
  }

  lemma TrajectoryBlacklists(p: PlanState, turns: seq<Turn>, ps: seq<PlanState>, fs: seq<Fate>, cap: Cap)
    requires Trajectory(p, turns, ps, fs)
    ensures BlacklistFollows(ps, fs, turns, cap)
  {
    forall i {:trigger fs[i]} | 0 <= i < |fs| && !GivesUp(ps, fs, i)
      ensures BlacklistStep(ps[i], turns[i], fs[i], ps[i + 1], cap)
    {
      BlacklistNext(ps[i], turns[i], cap);
    }
  }

  lemma {:induction false} BlacklistGrows(ps: seq<PlanState>, fs: seq<Fate>, turns: seq<Turn>, i: nat, cap: Cap)
    requires |ps| == |fs| + 1 && i <= |fs| <= |turns| && BlacklistFollows(ps, fs, turns, cap)
    requires ps[0].failures == map[] && forall k :: 0 <= k < i ==> !GivesUp(ps, fs, k)
    ensures cap !in ps[i].blacklisted ==> CountOf(ps[i].failures, cap) == |FailuresOf(ps, fs, i, cap)|
    ensures cap in ps[i].blacklisted <==>
      cap in ps[0].blacklisted || exists j :: 0 <= j < i && Breaks(ps, fs, turns, j, cap)
  {
    if i == 0 {
      assert FailuresOf(ps, fs, 0, cap) == {};
    } else {
      var n := i - 1;
      BlacklistGrows(ps, fs, turns, n, cap);
      assert !GivesUp(ps, fs, n);
      assert BlacklistStep(ps[n], turns[n], fs[n], ps[i], cap);
      FailuresSnoc(ps, fs, n, cap);
      BreaksSnoc(ps, fs, turns, n, cap);
    }
  }

  lemma FailuresSnoc(ps: seq<PlanState>, fs: seq<Fate>, n: nat, cap: Cap)
    requires n < |fs| < |ps|
    ensures |FailuresOf(ps, fs, n + 1, cap)| == |FailuresOf(ps, fs, n, cap)| + if FailsBy(ps, fs, n, cap) then 1 else 0
  {
    assert FailuresOf(ps, fs, n + 1, cap) ==
      if FailsBy(ps, fs, n, cap) then FailuresOf(ps, fs, n, cap) + {n} else FailuresOf(ps, fs, n, cap);
  }

  lemma BreaksSnoc(ps: seq<PlanState>, fs: seq<Fate>, turns: seq<Turn>, n: nat, cap: Cap)
    requires n < |fs| < |ps| && |fs| <= |turns|
    ensures (exists j :: 0 <= j < n + 1 && Breaks(ps, fs, turns, j, cap)) <==>
      Breaks(ps, fs, turns, n, cap) || exists j :: 0 <= j < n && Breaks(ps, fs, turns, j, cap)
  {
  }

  /** What is blacklisted when turn `i` begins: what was broken before the call, and what a turn of it found broken. */
  lemma BlacklistedIff(p: PlanState, turns: seq<Turn>, ps: seq<PlanState>, fs: seq<Fate>, i: nat, cap: Cap)
    requires p.failures == map[] && Trajectory(p, turns, ps, fs) && i <= |fs|
    requires forall k :: 0 <= k < i ==> !GivesUp(ps, fs, k)
    ensures cap in ps[i].blacklisted <==>
      cap in p.blacklisted || exists j :: 0 <= j < i && Breaks(ps, fs, turns, j, cap)
  {
    TrajectoryBlacklists(p, turns, ps, fs, cap);
    BlacklistGrows(ps, fs, turns, i, cap);
  }

  // ---------- when a transaction stays open ----------

  /** From turn `i` to turn `n` none gets to a completion check: all are passed over, or the goal is gone first. */
  predicate NeverActs(p: PlanState, turns: seq<Turn>, i: nat, n: nat)
    requires i <= n <= |turns|
    decreases n - i
  {
    i == n ||
    (if Skips(p, turns[i]) then NeverActs(Skipped(p, turns[i]), turns, i + 1, n) else turns[i].noGoal)
  }

  /** What leaves a transaction neither committed nor rolled back, in terms of what the call is given. */
  predicate LeftOpen(start: Goal, firstPlan: seq<Option<Cap>>, maxSteps: nat, broken: seq<Cap>, turns: seq<Turn>)
    requires |turns| >= maxSteps
  {
    start.progress >= FULL && NeverActs(FirstState(firstPlan, maxSteps, broken), turns, 0, maxSteps)
  }

  /** A plan wholly of tools known to be broken never acts, and neither does a call without steps. */
  lemma {:induction false} BrokenPlanNeverActs(p: PlanState, turns: seq<Turn>, i: nat, n: nat)
    requires i <= n <= |turns| && p.index == i && n <= |p.plan|
    requires forall k :: i <= k < n ==> p.plan[k].Some? && p.plan[k].value in p.blacklisted
    ensures NeverActs(p, turns, i, n)
    decreases n - i
  {
    if i < n {
      BrokenPlanNeverActs(Skipped(p, turns[i]), turns, i + 1, n);
    }
  }

  lemma BrokenPlanLeavesOpen(start: Goal, firstPlan: seq<Option<Cap>>, maxSteps: nat, broken: seq<Cap>,
                             turns: seq<Turn>)
    requires |turns| >= maxSteps && start.progress >= FULL && |firstPlan| >= maxSteps
    requires forall i :: 0 <= i < maxSteps ==> firstPlan[i].Some? && firstPlan[i].value in broken
    ensures LeftOpen(start, firstPlan, maxSteps, broken, turns)
  {
    BrokenPlanNeverActs(FirstState(firstPlan, maxSteps, broken), turns, 0, maxSteps);
  }

  ghost predicate SomethingLeavesOpen(start: Goal, maxSteps: nat) {
    exists firstPlan, broken, turns :: |turns| >= maxSteps && LeftOpen(start, firstPlan, maxSteps, broken, turns)
  }

  /** A call resolves its transaction whatever the plan, the tools and the turns exactly when the goal is not full. */
  lemma AlwaysResolvedIffNotFull(start: Goal, maxSteps: nat)
    ensures !SomethingLeavesOpen(start, maxSteps) <==> start.progress < FULL
  {
    if start.progress >= FULL {
      var plan := seq(maxSteps, _ => Some("gone"));
      var turns := seq(maxSteps, _ => Turn(false, false, None, false, false, false, false, [], false));
      BrokenPlanLeavesOpen(start, plan, maxSteps, ["gone"], turns);
    }
  }

  lemma FateOfNever(p: PlanState, turns: seq<Turn>, i: nat, n: nat, f: Fate, q: PlanState)
    requires i < n <= |turns| && Follows(p, turns[i], f, q)
    ensures NeverActs(p, turns, i, n) <==>
      f.Goalless? || ((f.PassedOver? || f.Phantom?) && NeverActs(q, turns, i + 1, n))
  {
    SkipsIsFate(p, turns[i]);
  }

  /** From turn `i` on, none of the course acts exactly when none can. */
  lemma {:induction false} NeverActsIff(p: PlanState, turns: seq<Turn>, ps: seq<PlanState>, fs: seq<Fate>, i: nat,
                                        n: nat)
    requires Trajectory(p, turns, ps, fs) && i <= |fs| <= n <= |turns|
    requires |fs| == n || (i < |fs| && (fs[|fs| - 1].Goalless? || Acts(fs[|fs| - 1])))
    requires forall k :: i <= k < |fs| - 1 ==> !fs[k].Goalless?
    ensures NeverActs(ps[i], turns, i, n) <==> forall k :: i <= k < |fs| ==> !Acts(fs[k])
    ensures i == 0 ==> (NeverActs(ps[i], turns, i, n) <==> IdleUpTo(fs, |fs|))
    decreases |fs| - i
  {
    if i < |fs| {
      assert Follows(ps[i], turns[i], fs[i], ps[i + 1]);
      FateOfNever(ps[i], turns, i, n, fs[i], ps[i + 1]);
      if !fs[i].Goalless? && (i + 1 < |fs| || |fs| == n) {
        NeverActsIff(p, turns, ps, fs, i + 1, n);
      }
    }
  }

  /** A call runs out on a full goal exactly when what it is given leaves the transaction open. */
  lemma OpenIff(start: Goal, p: PlanState, turns: seq<Turn>, maxSteps: nat, ps: seq<PlanState>, fs: seq<Fate>,
                steps: nat, ending: Ending)
    requires Course(start, p, turns, maxSteps, ps, fs, steps, ending) && maxSteps <= |turns|
    ensures ending.RanOut? && SteppedAll(start, Execs(fs)).progress >= FULL <==>
            start.progress >= FULL && NeverActs(p, turns, 0, maxSteps)
  {
    CourseTurns(start, p, turns, maxSteps, ps, fs, steps, ending);
    NeverActsIff(p, turns, ps, fs, 0, maxSteps);
    if ending.RanOut? {
      FullIffIdle(start, ps, fs, steps);
      LastAddsNothing(start, fs, steps);
    }
  }

  /** A turn that finds no goal adds nothing to what the ones before it did. */
  lemma LastAddsNothing(start: Goal, fs: seq<Fate>, steps: nat)
    requires steps == |fs| || (steps == |fs| - 1 && fs[steps].Goalless?)
    ensures FullAfter(start, fs, steps) <==> SteppedAll(start, Execs(fs)).progress >= FULL
    ensures IdleUpTo(fs, steps) <==> IdleUpTo(fs, |fs|)
  {
    assert fs[..|fs|] == fs;
    if steps < |fs| {
      ExecsUpTo(fs, steps);
      assert fs[..steps + 1] == fs && Execs(fs[..steps]) + [] == Execs(fs[..steps]);
    }
  }

  lemma CourseFacts(start: Goal, firstPlan: seq<Option<Cap>>, broken: seq<Cap>, turns: seq<Turn>, maxSteps: nat,
                    ps: seq<PlanState>, fs: seq<Fate>, steps: nat, ending: Ending)
    requires maxSteps <= |turns|
    requires Course(start, FirstState(firstPlan, maxSteps, broken), turns, maxSteps, ps, fs, steps, ending)
    ensures Call(start, After(start, Execs(fs), ending), Execs(fs), ending)
    ensures ending.RanOut? && SteppedAll(start, Execs(fs)).progress >= FULL <==>
            LeftOpen(start, firstPlan, maxSteps, broken, turns)
  {
    CourseIsCall(start, FirstState(firstPlan, maxSteps, broken), turns, maxSteps, ps, fs, steps, ending);
    OpenIff(start, FirstState(firstPlan, maxSteps, broken), turns, maxSteps, ps, fs, steps, ending);
  }

  /** Where a course can end. */
  lemma CourseTurns(start: Goal, p: PlanState, turns: seq<Turn>, maxSteps: nat, ps: seq<PlanState>, fs: seq<Fate>,
                    steps: nat, ending: Ending)
    requires Course(start, p, turns, maxSteps, ps, fs, steps, ending)
    ensures |fs| == maxSteps || (fs != [] && (fs[|fs| - 1].Goalless? || Acts(fs[|fs| - 1])))
    ensures forall k :: 0 <= k < |fs| - 1 ==> !fs[k].Goalless?
    ensures !ending.RanOut? ==> fs != [] && Acts(fs[|fs| - 1])
  {
    forall k {:trigger fs[k]} | 0 <= k < |fs| - 1 ensures !fs[k].Goalless? {
      assert GoesOn(start, ps, fs, k);
    }
  }

  class Pursuit {
    var goal: Goal
    var txns: seq<TxnEvent>
    var validations: nat

    constructor (goal: Goal)
      ensures this.goal == goal && txns == [] && validations == 0
    {
      this.goal, txns, validations := goal, [], 0;
    }

    /** One step; `None` for no goal, otherwise whether it succeeded. */
    method ExecuteStep(planned: Option<Cap>, turn: Turn) returns (ok: Option<bool>, ghost execs: seq<Exec>)
      modifies this`goal
      ensures execs == if turn.noGoal || turn.rejected || (planned.None? && turn.reasoned.None?) then []
                       else [Exec(if planned.Some? then planned.value else turn.reasoned.value, turn.success)]
      ensures goal == SteppedAll(old(goal), execs)
      ensures turn.noGoal <==> ok == None
      ensures ok == Some(true) <==> execs != [] && execs[0].success
    {
      if turn.noGoal {
        return None, [];
      }
      var cap := if planned.Some? then planned else turn.reasoned;
      if cap.None? || turn.rejected {
        return Some(false), [];
      }
      var step := Exec(cap.value, turn.success);
      execs := [step];
      assert execs[..0] == [];
      var delta := 0;
      var lastCap, output := goal.lastCap, goal.hasOutput;
      if turn.success {
        if lastCap != cap {
          delta := if cap.value in OUTPUT_CAPS then 20 else 10;
        } else {
          delta := 2;
        }
        lastCap := cap;
        if cap.value in OUTPUT_CAPS {
          output := true;
        }
      }
      var progress := if output then Min(FULL, goal.progress + delta) else Min(GATE, goal.progress + delta);
      goal := goal.(progress := progress, hasOutput := output, lastCap := lastCap, steps := goal.steps + 1);
      ok := Some(turn.success);
    }

    method Commit(txn: Option<string>)
      modifies this`txns
      ensures txns == old(txns) + if txn.Some? then [Committed(txn.value)] else []
    {
      if txn.Some? {
        txns := txns + [Committed(txn.value)];
      }
    }

    method Rollback(txn: Option<string>)
      modifies this`txns
      ensures txns == old(txns) + if txn.Some? then [RolledBack(txn.value)] else []
    {
      if txn.Some? {
        txns := txns + [RolledBack(txn.value)];
      }
    }

    /** The completion check: a full goal is committed and then validated, and that ends the call. */
    method Check(txn: Option<string>, validated: bool) returns (verdict: Option<Ending>)
      modifies this
      ensures old(goal).progress < FULL ==> verdict == None && unchanged(this)
      ensures old(goal).progress >= FULL ==>
                verdict == Some(if validated then Finished
                                else if old(goal).strikes + 1 >= MAX_STRIKES then StruckOut else Struck) &&
                goal == After(old(goal), [], verdict.value) && validations == old(validations) + 1 &&
                txns == old(txns) + if txn.Some? then [Committed(txn.value)] else []
    {
      if goal.progress < FULL {
        return None;
      }
      Commit(txn);
      validations := validations + 1;
      if validated {
        goal := goal.(status := Completed);
        return Some(Finished);
      }
      var fails := goal.strikes + 1;
      if fails >= MAX_STRIKES {
        goal := goal.(strikes := fails, status := Abandoned);
        return Some(StruckOut);
      }
      goal := goal.(strikes := fails, progress := RETRY, hasOutput := false);
      return Some(Struck);
    }

    /** One turn of the loop: skip, or execute and recover from failure, then check for completion. */
    method TakeTurn(p: PlanState, startMetrics: Goal, txn: Option<string>, turn: Turn, ghost before: seq<Exec>)
      returns (q: PlanState, r: TurnResult, ghost execs: seq<Exec>)
      requires goal == SteppedAll(startMetrics, before)
      modifies this
      ensures execs == before + ExecOf(FateOf(p, turn))
      ensures TurnEnds(startMetrics, turn, FateOf(p, turn), Next(p, turn), execs, r)
      ensures !r.NoGoal? ==> q == Next(p, turn)
      ensures !r.Stop? ==> goal == SteppedAll(startMetrics, execs) && unchanged(`txns) && unchanged(`validations)
      ensures r.Stop? ==> !r.ending.RanOut? && goal == After(startMetrics, execs, r.ending) &&
                          txns == old(txns) + Closed(txn, r.ending) &&
                          validations == old(validations) + if Validates(r.ending) then 1 else 0
    {
      execs := before;
      var cap := Planned(p);
      var skipped;
      q, skipped := SkipUnusable(p, turn);
      SkipsIsFate(p, turn);
      if skipped {
        return q, GoOn, execs;
      }
      var ok, more := ExecuteStep(cap, turn);
      if ok.None? {
        return q, NoGoal, execs;
      }
      ActsIsFate(p, turn, more, ok.value);
      SteppedSnoc(startMetrics, before, more);
      execs := before + more;
      q := Recover(q, cap, ok.value, turn);
      r := Judge(startMetrics, txn, turn, !ok.value && q.consecutive >= MAX_CONSECUTIVE, execs);
      JudgedEnds(startMetrics, turn, FateOf(p, turn), q, execs, r, !ok.value && q.consecutive >= MAX_CONSECUTIVE);
    }

    /** After a step: give up after four failures in a row, otherwise check for completion. */
    method Judge(startMetrics: Goal, txn: Option<string>, turn: Turn, hopeless: bool, ghost execs: seq<Exec>)
      returns (r: TurnResult)
      requires goal == SteppedAll(startMetrics, execs)
      modifies this
      ensures r == if hopeless then Stop(GaveUp)
                   else if SteppedAll(startMetrics, execs).progress < FULL then GoOn
                   else Stop(Verdict(turn.validated, startMetrics.strikes))
      ensures r.GoOn? ==> unchanged(this)
      ensures r.Stop? ==> goal == After(startMetrics, execs, r.ending) && txns == old(txns) + Closed(txn, r.ending) &&
                          validations == old(validations) + if Validates(r.ending) then 1 else 0
    {
      SteppedKeeps(startMetrics, execs);
      if hopeless {
        goal := startMetrics.(status := Abandoned);
        Rollback(txn);
        return Stop(GaveUp);
      }
      var verdict := Check(txn, turn.validated);
      r := if verdict.Some? then Stop(verdict.value) else GoOn;
    }

    /** Blacklisted capabilities and those the engine does not have use up their turn without executing. */
    static method SkipUnusable(p: PlanState, turn: Turn) returns (q: PlanState, skipped: bool)
      ensures skipped <==> Skips(p, turn)
      ensures q == if skipped then Skipped(p, turn) else p.(index := p.index + 1)
    {
      q, skipped := p.(index := p.index + 1), false;
      var cap := Planned(p);
      if cap.Some? {
        if cap.value in p.blacklisted {
          skipped := true;
        } else if turn.phantom {
          q := q.(failures := p.failures[cap.value := CountOf(p.failures, cap.value) + 3],
                  blacklisted := p.blacklisted + [cap.value], consecutive := p.consecutive + 1);
          skipped := true;
        }
      }
    }

    /** What a call learns from one executed step, and how it replans after a failure. */
    static method Recover(p: PlanState, cap: Option<Cap>, ok: bool, turn: Turn) returns (q: PlanState)
      ensures q == Recovered(p, cap, ok, turn)
    {
      q := p;
      if ok {
        return if turn.hasResult then p.(consecutive := 0) else p;
      }
      q := q.(consecutive := p.consecutive + 1);
      if cap.Some? {
        q := q.(failures := p.failures[cap.value := CountOf(p.failures, cap.value) + 1]);
      }
      if q.consecutive < MAX_CONSECUTIVE {
        var blacklisted := Blacklist(cap, turn, q.failures, q.blacklisted);
        q := q.(blacklisted := blacklisted, plan := Replanned(p.plan, p.index, turn.newPlan));
      }
    }

    /** Plan, execute, replan, validate; `txn` is the transaction that could be opened, if any. */
    method PursueGoal(firstPlan: seq<Option<Cap>>, maxSteps: nat, broken: seq<Cap>, txn: Option<string>,
                      turns: seq<Turn>)
      returns (progress: int, steps: nat, ghost ending: Ending, ghost ps: seq<PlanState>, ghost fs: seq<Fate>)
      requires goal.status == Active && |turns| >= maxSteps
      modifies this
      ensures Course(old(goal), FirstState(firstPlan, maxSteps, broken), turns, maxSteps, ps, fs, steps, ending)
      ensures Call(old(goal), goal, Execs(fs), ending)
      ensures validations == old(validations) + if Validates(ending) then 1 else 0
      ensures txns == old(txns) + if txn.None? then []
                                  else TxnLife(txn.value, ending, ending.RanOut? && goal.progress >= FULL)
      ensures ending.RanOut? && goal.progress >= FULL <==> LeftOpen(old(goal), firstPlan, maxSteps, broken, turns)
      ensures progress == match goal.status
                          case Active => goal.progress
                          case Completed => 100
                          case Abandoned => 0
    {
      var startMetrics := goal;
      var plan := if firstPlan == [] then [None] else firstPlan;
      var p := PlanState(plan[..if maxSteps < |plan| then maxSteps else |plan|], 0, map[], 0, broken);
      if txn.Some? {
        txns := txns + [Began(txn.value)];
      }
      var r;
      r, steps, ps, fs := RunTurns(p, startMetrics, maxSteps, txn, turns);
      ending := if r.Stop? then r.ending else RanOut;
      CourseFacts(startMetrics, firstPlan, broken, turns, maxSteps, ps, fs, steps, ending);
      progress := if r.Stop? then Reported(r.ending, goal) else goal.progress;
      if !r.Stop? && progress < FULL {
        Rollback(txn);
      }
      TxnEnds(old(txns), txn, ending);
      ReportedIs(startMetrics, Execs(fs), ending);
    }

    /** The loop: turns until one ends the call, finds no goal, or uses up the steps. */
    method RunTurns(first: PlanState, startMetrics: Goal, maxSteps: nat, txn: Option<string>, turns: seq<Turn>)
      returns (r: TurnResult, steps: nat, ghost ps: seq<PlanState>, ghost fs: seq<Fate>)
      requires goal == startMetrics && |turns| >= maxSteps
      modifies this
      ensures Course(startMetrics, first, turns, maxSteps, ps, fs, steps, if r.Stop? then r.ending else RanOut)
      ensures goal == After(startMetrics, Execs(fs), if r.Stop? then r.ending else RanOut)
      ensures r.Stop? ==> !r.ending.RanOut? && txns == old(txns) + Closed(txn, r.ending) &&
                          validations == old(validations) + if Validates(r.ending) then 1 else 0
      ensures !r.Stop? ==> unchanged(`txns) && unchanged(`validations)
    {
      var p := first;
      ghost var execs: seq<Exec> := [];
      steps, ps, fs, r := 0, [p], [], GoOn;
      while steps < maxSteps && r.GoOn?
        invariant steps <= maxSteps && !r.Stop? && (r.NoGoal? ==> steps < maxSteps)
        invariant goal == SteppedAll(startMetrics, execs)
        invariant Begun(startMetrics, first, turns, ps, fs, steps, execs, r.NoGoal?)
        invariant r.GoOn? ==> p == ps[steps]
        invariant unchanged(`txns) && unchanged(`validations)
        decreases maxSteps - steps, r.GoOn?
      {
        ghost var f, q := FateOf(p, turns[steps]), Next(p, turns[steps]);
        p, r, execs := TakeTurn(p, startMetrics, txn, turns[steps], execs);
        TurnTaken(startMetrics, first, turns, maxSteps, ps, fs, q, f, execs, r);
        ps, fs := ps + [q], fs + [f];
        steps := if r.NoGoal? then steps else steps + 1;
        if r.Stop? {
          return;
        }
      }
      RanOutCourse(startMetrics, first, turns, maxSteps, ps, fs, steps, execs, r.NoGoal?);
    }

    /** A tool that keeps returning nothing, or has failed three times in this call, is not used again in it. */
    static method Blacklist(cap: Option<Cap>, turn: Turn, failureCounts: map<Cap, nat>, blacklisted: seq<Cap>)
      returns (result: seq<Cap>)
      ensures result == Blacklisted(cap, turn, failureCounts, blacklisted)
    {
      result := blacklisted;
      if cap.Some? {
        if turn.nullFailures && cap.value !in result {
          result := result + [cap.value];
        }
        if CountOf(failureCounts, cap.value) >= 3 && cap.value !in result {
          result := result + [cap.value];
        }
      }
    }
  }

  // ---------- over many calls ----------

  /** An active goal is unfinished with fewer than five strikes; five strikes abandon, and only a full one completes. */
  ghost predicate Sound(g: Goal) {
    Metered(g) && g.strikes <= MAX_STRIKES &&
    (g.status == Active ==> g.progress < FULL) &&
    (g.status == Completed ==> g.progress == FULL && g.hasOutput) &&
    (g.strikes == MAX_STRIKES ==> g.status == Abandoned)
  }

  lemma CallKeepsSound(start: Goal, after: Goal, execs: seq<Exec>, ending: Ending)
    requires Sound(start) && start.status == Active && Call(start, after, execs, ending)
    ensures Sound(after)
    ensures after.strikes == start.strikes + if ending.Struck? || ending.StruckOut? then 1 else 0
    ensures after.status == Active <==> ending.Struck? || ending.RanOut?
  {
    SteppedStaysMetered(start, execs);
  }

  /** The transaction is committed exactly when the goal became full during the call. */
  lemma CommitIffReached(start: Goal, after: Goal, execs: seq<Exec>, ending: Ending)
    requires start.progress < FULL && Call(start, after, execs, ending)
    ensures Validates(ending) <==> exists k :: 0 <= k <= |execs| && SteppedAll(start, execs[..k]).progress >= FULL
  {
    assert execs[..|execs|] == execs;
  }

  /** After a failed validation the goal is at 0.85, and only a successful output step can fill it again. */
  lemma FailedValidationClosesTheGate(start: Goal, after: Goal, execs: seq<Exec>, later: seq<Exec>)
    requires Call(start, after, execs, Struck) && SteppedAll(after, later).progress >= FULL
    ensures after.progress == RETRY && !after.hasOutput
    ensures exists k :: 0 <= k < |later| && later[k].success && later[k].cap in OUTPUT_CAPS
  {
    if forall k :: 0 <= k < |later| ==> !(later[k].success && later[k].cap in OUTPUT_CAPS) {
      GateHolds(after, later);
      assert false;
    }
  }

  ghost predicate SomeCall(start: Goal, after: Goal) {
    exists execs, ending :: Call(start, after, execs, ending)
  }

  /** The states of one goal over successive calls, each of which found it active. */
  ghost predicate Calls(gs: seq<Goal>) {
    |gs| > 0 &&
    if |gs| == 1 then gs[0] == NEW_GOAL
    else Calls(gs[..|gs| - 1]) && gs[|gs| - 2].status == Active && SomeCall(gs[|gs| - 2], gs[|gs| - 1])
  }

  /** Over every run of calls on a new goal. */
  lemma {:induction false} CallsStaySound(gs: seq<Goal>)
    requires Calls(gs)
    ensures Sound(gs[|gs| - 1])
  {
    if |gs| > 1 {
      var front := gs[..|gs| - 1];
      CallsStaySound(front);
      var start, after := gs[|gs| - 2], gs[|gs| - 1];
      assert start == front[|front| - 1];
      var execs, ending :| Call(start, after, execs, ending);
      CallKeepsSound(start, after, execs, ending);
    }
  }
}
