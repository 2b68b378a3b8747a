/** The daemon's stall scheduler: counters, the stall rules, cooling and release. */
module Daemon {
  import opened Sequences

  type Id = string

  const STALL_LIMIT: nat := 5
  const REPEAT_LIMIT: nat := 4
  const HISTORY_SIZE: nat := 5
  const AGE_LIMIT: nat := 8
  const DRAIN_PERIOD: nat := 10
  const RELEASE_BATCH: nat := 2

  datatype Tracked = Tracked(goal: string, since: nat)

  datatype Metrics = Metrics(
    cycles: nat, completed: nat, errors: nat,
    stalled: map<Id, nat>, skipped: set<Id>, history: map<Id, seq<string>>, tracking: map<Id, Tracked>)

  const INITIAL: Metrics := Metrics(0, 0, 0, map[], {}, map[], map[])

  // ---------- recording and judging ----------

  function StallCount(m: Metrics, a: Id): nat {
    if a in m.stalled then m.stalled[a] else 0
  }

  function Without<V>(m: map<Id, V>, a: Id): map<Id, V> {
    m - {a}
  }

  /** A bounded history keeps its newest entries. */
  function Push(h: seq<string>, cap: string): seq<string> {
    if |h| < HISTORY_SIZE then h + [cap] else h[|h| - HISTORY_SIZE + 1..] + [cap]
  }

  /** Tracks repetition of the last capability. */
  function NotedCap(m: Metrics, a: Id, cap: string): Metrics {
    if cap == "" then m
    else m.(history := m.history[a := Push(if a in m.history then m.history[a] else [], cap)])
  }

  /** Tracks since when the agent is on its goal; a new goal forgets the history. */
  function NotedGoal(m: Metrics, a: Id, goal: string): Metrics {
    if a !in m.tracking then m.(tracking := m.tracking[a := Tracked(goal, m.cycles)])
    else if m.tracking[a].goal != goal then
      m.(tracking := m.tracking[a := Tracked(goal, m.cycles)], history := Without(m.history, a))
    else m
  }

  function NotedProgress(m: Metrics, a: Id, progress: real, prev: real): Metrics {
    if progress == prev then m.(stalled := m.stalled[a := StallCount(m, a) + 1])
    else m.(stalled := m.stalled[a := 0], skipped := m.skipped - {a})
  }

  function Recorded(m: Metrics, a: Id, progress: real, prev: real, cap: string, goal: string): Metrics {
    if progress >= 1.0 then
      m.(completed := m.completed + 1, history := Without(m.history, a), tracking := Without(m.tracking, a))
    else NotedProgress(NotedGoal(NotedCap(m, a, cap), a, goal), a, progress, prev)
  }

  /** The last four capabilities are one and the same. */
  predicate Repeats(m: Metrics, a: Id) {
    a in m.history &&
    var h := m.history[a];
    |h| >= REPEAT_LIMIT && forall i :: |h| - REPEAT_LIMIT <= i < |h| ==> h[i] == h[|h| - 1]
  }

  /** Eight cycles or more on one goal. */
  predicate Aged(m: Metrics, a: Id) {
    a in m.tracking && m.cycles - m.tracking[a].since >= AGE_LIMIT
  }

  predicate IsStalled(m: Metrics, a: Id) {
    StallCount(m, a) >= STALL_LIMIT || Repeats(m, a) || Aged(m, a)
  }

  // ---------- one cycle of the main loop ----------

  datatype Outcome = Ran(agent: Id, progress: real, prev: real, cap: string, goal: string)
                   | Failed(agent: Id)

  /** What a cycle meets: agents with goals, outcomes in the order they complete, agents the drain picks. */
  datatype Input = Input(withGoals: seq<Id>, outcomes: seq<Outcome>, released: set<Id>)

  function Begun(m: Metrics): Metrics {
    m.(cycles := m.cycles + 1)
  }

  /** The skip step; the repaired one also forgets the history and the goal of the skipped agent. */
  function Skip(m: Metrics, a: Id, repaired: bool): Metrics {
    var s := m.(skipped := m.skipped + {a}, stalled := m.stalled[a := 0]);
    if repaired then s.(history := Without(m.history, a), tracking := Without(m.tracking, a)) else s
  }

  datatype Selection = Selection(metrics: Metrics, runnable: seq<Id>)

  /** Goes over `agents`, which were not cooling when the cycle began, and sorts out the stalled ones. */
  function Select(m: Metrics, agents: seq<Id>, repaired: bool): Selection {
    if agents == [] then Selection(m, []) else
      var s := Select(m, agents[..|agents| - 1], repaired);
      var a := agents[|agents| - 1];
      if IsStalled(s.metrics, a) then s.(metrics := Skip(s.metrics, a, repaired))
      else s.(runnable := s.runnable + [a])
  }

  function Active(agents: seq<Id>, skipped: set<Id>): seq<Id> {
    if agents == [] then [] else
      Active(agents[..|agents| - 1], skipped) +
      if agents[|agents| - 1] in skipped then [] else [agents[|agents| - 1]]
  }

  function Chosen(m: Metrics, withGoals: seq<Id>, repaired: bool): Selection {
    Select(Begun(m), Active(withGoals, m.skipped), repaired)
  }

  function Absorb(m: Metrics, o: Outcome): Metrics {
    match o
    case Ran(a, progress, prev, cap, goal) => Recorded(m, a, progress, prev, cap, goal)
    case Failed(a) => m.(errors := m.errors + 1, stalled := m.stalled[a := StallCount(m, a) + 1])
  }

  function AbsorbAll(m: Metrics, outcomes: seq<Outcome>): Metrics {
    if outcomes == [] then m
    else Absorb(AbsorbAll(m, outcomes[..|outcomes| - 1]), outcomes[|outcomes| - 1])
  }

  function HowMany(outcomes: seq<Outcome>, counts: Outcome -> bool): nat {
    if outcomes == [] then 0
    else HowMany(outcomes[..|outcomes| - 1], counts) + if counts(outcomes[|outcomes| - 1]) then 1 else 0
  }

  /** The counters grow by the goals finished and by the errors, and by nothing else. */
  lemma {:induction false} CountersTell(m: Metrics, outcomes: seq<Outcome>)
    ensures var n := AbsorbAll(m, outcomes);
      n.errors == m.errors + HowMany(outcomes, (o: Outcome) => o.Failed?) &&
      n.completed == m.completed + HowMany(outcomes, (o: Outcome) => o.Ran? && o.progress >= 1.0)
  {
    if outcomes != [] {
      CountersTell(m, outcomes[..|outcomes| - 1]);
    }
  }

  function ZeroAll(stalled: map<Id, nat>, agents: set<Id>): map<Id, nat> {
    map a | a in stalled.Keys + agents :: if a in agents then 0 else stalled[a]
  }

  predicate Drains(m: Metrics) {
    m.cycles % DRAIN_PERIOD == 0 && m.skipped != {}
  }

  function Drained(m: Metrics, released: set<Id>): Metrics {
    if Drains(m) then m.(skipped := m.skipped - released, stalled := ZeroAll(m.stalled, released)) else m
  }

  function Cycle(m: Metrics, i: Input, repaired: bool): Metrics {
    Drained(AbsorbAll(Chosen(m, i.withGoals, repaired).metrics, i.outcomes), i.released)
  }

  /** Only agents that were run report an outcome; the drain picks two cooling agents, or all if fewer. */
  ghost predicate Possible(m: Metrics, i: Input, repaired: bool) {
    var s := Chosen(m, i.withGoals, repaired);
    (forall k :: 0 <= k < |i.outcomes| ==> i.outcomes[k].agent in s.runnable) &&
    (forall j, k :: 0 <= j < k < |i.withGoals| ==> i.withGoals[j] != i.withGoals[k]) &&
    var d := AbsorbAll(s.metrics, i.outcomes);
    Drains(d) ==>
      i.released <= d.skipped &&
      |i.released| == if |d.skipped| < RELEASE_BATCH then |d.skipped| else RELEASE_BATCH
  }

  function Run(m: Metrics, inputs: seq<Input>, repaired: bool): Metrics {
    if inputs == [] then m else Cycle(Run(m, inputs[..|inputs| - 1], repaired), inputs[|inputs| - 1], repaired)
  }

  ghost predicate PossibleRun(m: Metrics, inputs: seq<Input>, repaired: bool) {
    inputs == [] ||
    (PossibleRun(m, inputs[..|inputs| - 1], repaired) &&
     Possible(Run(m, inputs[..|inputs| - 1], repaired), inputs[|inputs| - 1], repaired))
  }

  /** Agent `a` runs in the cycle that starts from `m` and meets `i`. */
  ghost predicate Runs(m: Metrics, i: Input, a: Id, repaired: bool) {
    a in Chosen(m, i.withGoals, repaired).runnable
  }

  // ---------- what a cycle does to one agent ----------

  /** The parts of the metrics that concern `a`. */
  ghost predicate SameFor(m: Metrics, n: Metrics, a: Id) {
    StallCount(m, a) == StallCount(n, a) && (a in m.skipped <==> a in n.skipped) &&
    (a in m.history <==> a in n.history) && (a in m.history ==> m.history[a] == n.history[a]) &&
    (a in m.tracking <==> a in n.tracking) && (a in m.tracking ==> m.tracking[a] == n.tracking[a])
  }

  lemma {:induction false} ActiveMembers(agents: seq<Id>, skipped: set<Id>, a: Id)
    ensures a in Active(agents, skipped) <==> a in agents && a !in skipped
  {
    if agents != [] {
      ActiveMembers(agents[..|agents| - 1], skipped, a);
      assert agents == agents[..|agents| - 1] + [agents[|agents| - 1]];
    }
  }

  /** Sorting out other agents leaves `a` alone. */
  lemma {:induction false} SelectOthers(m: Metrics, agents: seq<Id>, a: Id, repaired: bool)
    requires a !in agents
    ensures SameFor(m, Select(m, agents, repaired).metrics, a)
    ensures Select(m, agents, repaired).metrics.cycles == m.cycles && a !in Select(m, agents, repaired).runnable
  {
    if agents != [] {
      assert agents == agents[..|agents| - 1] + [agents[|agents| - 1]];
      SelectOthers(m, agents[..|agents| - 1], a, repaired);
    }
  }

  lemma {:induction false} SelectDecides(m: Metrics, agents: seq<Id>, a: Id, repaired: bool)
    requires forall j, k :: 0 <= j < k < |agents| ==> agents[j] != agents[k]
    requires a in agents
    ensures var s := Select(m, agents, repaired);
      (a in s.runnable <==> !IsStalled(m, a)) && s.metrics.cycles == m.cycles &&
      SameFor(s.metrics, if IsStalled(m, a) then Skip(m, a, repaired) else m, a)
  {
    var front, b := agents[..|agents| - 1], agents[|agents| - 1];
    assert agents == front + [b];
    if b == a {
      SelectOthers(m, front, a, repaired);
    } else {
      SelectDecides(m, front, a, repaired);
    }
  }

  lemma ActiveDistinct(agents: seq<Id>, skipped: set<Id>)
    requires forall j, k :: 0 <= j < k < |agents| ==> agents[j] != agents[k]
    ensures var act := Active(agents, skipped); forall j, k :: 0 <= j < k < |act| ==> act[j] != act[k]
  {
    if agents != [] {
      var front, last := agents[..|agents| - 1], agents[|agents| - 1];
      ActiveDistinct(front, skipped);
      ActiveMembers(front, skipped, last);
      assert last !in front;
      var act := Active(front, skipped);
      assert forall j :: 0 <= j < |act| ==> act[j] in act;
    }
  }

  /** An agent runs exactly when it has a goal, is not cooling and no stall rule holds of it. */
  lemma RunsIff(m: Metrics, i: Input, a: Id, repaired: bool)
    requires Possible(m, i, repaired)
    ensures Runs(m, i, a, repaired) <==> a in i.withGoals && a !in m.skipped && !IsStalled(Begun(m), a)
    ensures var s := Chosen(m, i.withGoals, repaired).metrics;
      s.cycles == m.cycles + 1 &&
      SameFor(s, if a in i.withGoals && a !in m.skipped && IsStalled(Begun(m), a)
                 then Skip(Begun(m), a, repaired) else m, a)
  {
    var act := Active(i.withGoals, m.skipped);
    ActiveMembers(i.withGoals, m.skipped, a);
    ActiveDistinct(i.withGoals, m.skipped);
    if a in act {
      SelectDecides(Begun(m), act, a, repaired);
    } else {
      SelectOthers(Begun(m), act, a, repaired);
    }
  }

  lemma AbsorbOther(m: Metrics, o: Outcome, a: Id)
    requires o.agent != a
    ensures SameFor(m, Absorb(m, o), a) && Absorb(m, o).cycles == m.cycles
  {
    if o.Ran? && o.progress < 1.0 {
      var n := NotedCap(m, o.agent, o.cap);
      assert SameFor(m, n, a);
      assert SameFor(m, NotedGoal(n, o.agent, o.goal), a);
    }
  }

  lemma {:induction false} AbsorbOthers(m: Metrics, outcomes: seq<Outcome>, a: Id)
    requires forall k :: 0 <= k < |outcomes| ==> outcomes[k].agent != a
    ensures SameFor(m, AbsorbAll(m, outcomes), a) && AbsorbAll(m, outcomes).cycles == m.cycles
  {
    if outcomes != [] {
      AbsorbOthers(m, outcomes[..|outcomes| - 1], a);
      AbsorbOther(AbsorbAll(m, outcomes[..|outcomes| - 1]), outcomes[|outcomes| - 1], a);
    }
  }

  lemma {:induction false} AbsorbKeepsCycles(m: Metrics, outcomes: seq<Outcome>)
    ensures AbsorbAll(m, outcomes).cycles == m.cycles && AbsorbAll(m, outcomes).skipped <= m.skipped
  {
    if outcomes != [] {
      AbsorbKeepsCycles(m, outcomes[..|outcomes| - 1]);
    }
  }

  // ---------- the two rules that nothing clears ----------

  /** From the next cycle on, the repetition rule or the age rule holds of `a`. */
  ghost predicate Stuck(m: Metrics, a: Id) {
    Repeats(m, a) || Aged(Begun(m), a)
  }

  /** As written: an agent that is stuck does not run, and stays stuck. */
  lemma StuckStays(m: Metrics, i: Input, a: Id)
    requires Possible(m, i, false) && Stuck(m, a)
    ensures !Runs(m, i, a, false) && Stuck(Cycle(m, i, false), a)
  {
    RunsIff(m, i, a, false);
    AbsorbOthers(Chosen(m, i.withGoals, false).metrics, i.outcomes, a);
  }

  /** As written: an agent that is stuck never runs again, in any run. */
  lemma {:induction false} StuckForever(m: Metrics, inputs: seq<Input>, a: Id)
    requires PossibleRun(m, inputs, false) && Stuck(m, a)
    ensures Stuck(Run(m, inputs, false), a)
    ensures forall k :: 0 <= k < |inputs| ==> !Runs(Run(m, inputs[..k], false), inputs[k], a, false)
  {
    if inputs != [] {
      var front := inputs[..|inputs| - 1];
      StuckForever(m, front, a);
      StuckStays(Run(m, front, false), inputs[|inputs| - 1], a);
      forall k | 0 <= k < |inputs|
        ensures !Runs(Run(m, inputs[..k], false), inputs[k], a, false)
      {
        if k < |front| {
          assert front[..k] == inputs[..k] && front[k] == inputs[k];
        }
      }
    }
  }

  /** As written: an agent just released runs in the next cycle that finds it a goal exactly when it is not stuck. */
  lemma ReleasedRunsIffNotStuck(m: Metrics, i: Input, a: Id)
    requires Possible(m, i, false) && a in i.withGoals && a !in m.skipped && StallCount(m, a) == 0
    ensures Runs(m, i, a, false) <==> !Stuck(m, a)
  {
    RunsIff(m, i, a, false);
  }

  /** Every outcome of `a` is an error or leaves this goal unfinished. */
  ghost predicate OnGoal(outcomes: seq<Outcome>, a: Id, goal: string) {
    forall k :: 0 <= k < |outcomes| && outcomes[k].agent == a ==>
      outcomes[k].Failed? || (outcomes[k].goal == goal && outcomes[k].progress < 1.0)
  }

  ghost predicate KeepsToGoal(i: Input, a: Id, goal: string) {
    OnGoal(i.outcomes, a, goal)
  }

  lemma {:induction false} GoalKept(m: Metrics, outcomes: seq<Outcome>, a: Id)
    requires a in m.tracking
    requires OnGoal(outcomes, a, m.tracking[a].goal)
    ensures a in AbsorbAll(m, outcomes).tracking && AbsorbAll(m, outcomes).tracking[a] == m.tracking[a]
  {
    if outcomes != [] {
      GoalKept(m, outcomes[..|outcomes| - 1], a);
    }
  }

  /** As written, progress does not help: eight cycles on one unfinished goal and the agent is stuck. */
  lemma {:induction false} OneGoalEightCycles(m: Metrics, inputs: seq<Input>, a: Id)
    requires PossibleRun(m, inputs, false) && a in m.tracking
    requires forall k :: 0 <= k < |inputs| ==> KeepsToGoal(inputs[k], a, m.tracking[a].goal)
    ensures var n := Run(m, inputs, false);
      n.cycles == m.cycles + |inputs| && a in n.tracking && n.tracking[a] == m.tracking[a] &&
      (n.cycles + 1 >= m.tracking[a].since + AGE_LIMIT ==> Stuck(n, a))
  {
    if inputs != [] {
      var front, last := inputs[..|inputs| - 1], inputs[|inputs| - 1];
      OneGoalEightCycles(m, front, a);
      var n := Run(m, front, false);
      RunsIff(n, last, a, false);
      GoalKept(Chosen(n, last.withGoals, false).metrics, last.outcomes, a);
      AbsorbKeepsCycles(Chosen(n, last.withGoals, false).metrics, last.outcomes);
    }
  }

  // ---------- runs that reach the two rules ----------

  /** The agent works on one goal, by the same capability each time if one is named, with or without progress. */
  function Work(cap: string, idle: bool): Input {
    Input(["a"], [Ran("a", 0.5, if idle then 0.5 else 0.25, cap, "g")], {})
  }

  /** The metrics after `k` such cycles from the start. */
  function Worked(cap: string, idle: bool, k: nat): Metrics {
    if k == 0 then INITIAL
    else Metrics(k, 0, 0, map["a" := if idle then k else 0], {}, if cap == "" then map[] else map["a" := Same(cap, k)],
                 map["a" := Tracked("g", 1)])
  }

  function Same(cap: string, k: nat): (s: seq<string>)
    ensures |s| == k && forall i :: 0 <= i < k ==> s[i] == cap
  {
    if k == 0 then [] else Same(cap, k - 1) + [cap]
  }

  /** No rule holds yet. */
  predicate Early(cap: string, idle: bool, k: nat) {
    k < AGE_LIMIT && (cap != "" ==> k < REPEAT_LIMIT) && (idle ==> k < STALL_LIMIT)
  }

  lemma WorkerIsChosen(cap: string, idle: bool, k: nat)
    requires Early(cap, idle, k)
    ensures Chosen(Worked(cap, idle, k), ["a"], false) == Selection(Begun(Worked(cap, idle, k)), ["a"])
  {
    var m, agents := Worked(cap, idle, k), ["a"];
    assert agents[..0] == [] && Active(agents, {}) == ["a"];
    assert !IsStalled(Begun(m), "a");
    assert Select(Begun(m), [], false) == Selection(Begun(m), []);
    assert Select(Begun(m), agents, false) == Selection(Begun(m), [] + ["a"]);
  }

  lemma WorkIsRecorded(cap: string, idle: bool, k: nat)
    requires Early(cap, idle, k)
    ensures Recorded(Begun(Worked(cap, idle, k)), "a", 0.5, if idle then 0.5 else 0.25, cap, "g") ==
            Worked(cap, idle, k + 1)
  {
    var noted := NotedCap(Begun(Worked(cap, idle, k)), "a", cap);
    assert cap != "" ==> noted.history == map["a" := Same(cap, k + 1)];
  }

  lemma WorkStep(cap: string, idle: bool, k: nat)
    requires Early(cap, idle, k)
    ensures Possible(Worked(cap, idle, k), Work(cap, idle), false)
    ensures Cycle(Worked(cap, idle, k), Work(cap, idle), false) == Worked(cap, idle, k + 1)
  {
    var outcomes := Work(cap, idle).outcomes;
    WorkerIsChosen(cap, idle, k);
    WorkIsRecorded(cap, idle, k);
    assert outcomes[..0] == [];
    assert AbsorbAll(Begun(Worked(cap, idle, k)), outcomes) == Worked(cap, idle, k + 1);
  }

  lemma OneMoreCycle(inputs: seq<Input>, i: Input, m: Metrics)
    requires PossibleRun(INITIAL, inputs, false) && Run(INITIAL, inputs, false) == m && Possible(m, i, false)
    ensures PossibleRun(INITIAL, inputs + [i], false) && Run(INITIAL, inputs + [i], false) == Cycle(m, i, false)
  {
    assert (inputs + [i])[..|inputs|] == inputs;
  }

  ghost predicate WorkedBy(cap: string, idle: bool, k: nat, inputs: seq<Input>) {
    PossibleRun(INITIAL, inputs, false) && Run(INITIAL, inputs, false) == Worked(cap, idle, k)
  }

  lemma WorkReaches(cap: string, idle: bool, k: nat, inputs: seq<Input>)
    requires Early(cap, idle, k) && WorkedBy(cap, idle, k, inputs)
    ensures WorkedBy(cap, idle, k + 1, inputs + [Work(cap, idle)])
  {
    WorkStep(cap, idle, k);
    OneMoreCycle(inputs, Work(cap, idle), Worked(cap, idle, k));
  }

  ghost predicate AllWork(cap: string, idle: bool, inputs: seq<Input>) {
    forall i :: 0 <= i < |inputs| ==> inputs[i] == Work(cap, idle)
  }

  lemma AllWorkSnoc(cap: string, idle: bool, inputs: seq<Input>)
    requires AllWork(cap, idle, inputs)
    ensures AllWork(cap, idle, inputs + [Work(cap, idle)])
  {
  }

  lemma AllWorkPrefix(cap: string, idle: bool, inputs: seq<Input>, front: seq<Input>)
    requires AllWork(cap, idle, inputs) && AllWork(cap, idle, front) && |front| <= |inputs|
    ensures inputs[..|front|] == front
  {
  }

  lemma {:induction false} WorkRun(cap: string, idle: bool, k: nat) returns (inputs: seq<Input>)
    requires k == 0 || Early(cap, idle, k - 1)
    ensures |inputs| == k && AllWork(cap, idle, inputs) && WorkedBy(cap, idle, k, inputs)
  {
    if k == 0 {
      inputs := [];
      NoWork(cap, idle);
    } else {
      inputs := WorkRun(cap, idle, k - 1);
      WorkReaches(cap, idle, k - 1, inputs);
      AllWorkSnoc(cap, idle, inputs);
      inputs := inputs + [Work(cap, idle)];
    }
  }

  lemma NoWork(cap: string, idle: bool)
    ensures WorkedBy(cap, idle, 0, [])
  {
  }

  /** The agent runs in every cycle of a run from the start. */
  ghost predicate RunsThroughout(inputs: seq<Input>, a: Id) {
    forall k {:trigger inputs[k]} :: 0 <= k < |inputs| ==> Runs(Run(INITIAL, inputs[..k], false), inputs[k], a, false)
  }

  lemma WorkRunsThroughout(cap: string, idle: bool, inputs: seq<Input>)
    requires AllWork(cap, idle, inputs) && (inputs == [] || Early(cap, idle, |inputs| - 1))
    ensures RunsThroughout(inputs, "a")
  {
    forall k {:trigger inputs[k]} | 0 <= k < |inputs|
      ensures Runs(Run(INITIAL, inputs[..k], false), inputs[k], "a", false)
    {
      var front := WorkRun(cap, idle, k);
      AllWorkPrefix(cap, idle, inputs, front);
      WorkerIsChosen(cap, idle, k);
    }
  }

  /** From the start, eight cycles of progress on one goal make an agent stuck by age. */
  lemma AgeIsReached() returns (inputs: seq<Input>)
    ensures |inputs| == 8 && PossibleRun(INITIAL, inputs, false)
    ensures RunsThroughout(inputs, "a")
    ensures var m := Run(INITIAL, inputs, false); Aged(Begun(m), "a") && !Repeats(m, "a") && Stuck(m, "a")
  {
    inputs := WorkRun("", false, 8);
    WorkRunsThroughout("", false, inputs);
    EightAreStuck();
  }

  lemma EightAreStuck()
    ensures var m := Worked("", false, 8); Aged(Begun(m), "a") && !Repeats(m, "a") && Stuck(m, "a")
  {
  }

  /** From the start, four cycles of progress by one capability make an agent stuck by repetition. */
  lemma RepetitionIsReached() returns (inputs: seq<Input>)
    ensures |inputs| == 4 && PossibleRun(INITIAL, inputs, false)
    ensures RunsThroughout(inputs, "a")
    ensures var m := Run(INITIAL, inputs, false); Repeats(m, "a") && !Aged(Begun(m), "a") && Stuck(m, "a")
  {
    inputs := WorkRun("x", false, 4);
    WorkRunsThroughout("x", false, inputs);
    FourAreStuck();
  }

  lemma FourAreStuck()
    ensures var m := Worked("x", false, 4); Repeats(m, "a") && !Aged(Begun(m), "a") && Stuck(m, "a")
  {
  }

  /**
   * From the start, an agent that makes no progress on one goal runs in each of five cycles, and is skipped in the
   * sixth by the no-progress rule alone.
   */
  lemma NoProgressIsReached() returns (inputs: seq<Input>)
    ensures |inputs| == 5 && PossibleRun(INITIAL, inputs, false)
    ensures RunsThroughout(inputs, "a")
    ensures forall k :: 0 <= k < 5 ==> inputs[k] == Input(["a"], [Ran("a", 0.5, 0.5, "", "g")], {})
    ensures var m, sixth := Run(INITIAL, inputs, false), Input(["a"], [], {});
      Possible(m, sixth, false) && !Runs(m, sixth, "a", false) && StallCount(m, "a") == 5 &&
      !Repeats(Begun(m), "a") && !Aged(Begun(m), "a") && "a" in Cycle(m, sixth, false).skipped
  {
    inputs := WorkRun("", true, 5);
    WorkRunsThroughout("", true, inputs);
    SixthIsSkipped();
  }

  lemma SixthIsSkipped()
    ensures var m, sixth := Worked("", true, 5), Input(["a"], [], {});
      Possible(m, sixth, false) && !Runs(m, sixth, "a", false) && "a" in Cycle(m, sixth, false).skipped
  {
    var m, agents := Worked("", true, 5), ["a"];
    assert agents[..0] == [] && Active(agents, {}) == agents;
    assert IsStalled(Begun(m), "a");
    assert Select(Begun(m), [], false) == Selection(Begun(m), []);
    assert Select(Begun(m), agents, false) == Selection(Skip(Begun(m), "a", false), []);
  }

  // ---------- what the history holds ----------

  /** `h` is the newest of `before + caps`: all of them, or the last five. */
  predicate LastFive(before: seq<string>, caps: seq<string>, h: seq<string>) {
    var all := before + caps;
    if |all| <= 5 then h == all else |h| == 5 && forall i :: 0 <= i < 5 ==> h[i] == all[|all| - 5 + i]
  }

  /** The capabilities named in the outcomes of `a`, in order. */
  function Named(outcomes: seq<Outcome>, a: Id): seq<string> {
    if outcomes == [] then [] else
      var o := outcomes[|outcomes| - 1];
      Named(outcomes[..|outcomes| - 1], a) + if o.Ran? && o.agent == a && o.cap != "" then [o.cap] else []
  }

  /** While the agent keeps to one unfinished goal, its history is the last five capabilities named. */
  lemma {:induction false} HistoryIsLastFive(m: Metrics, outcomes: seq<Outcome>, a: Id)
    requires a in m.tracking && a in m.history && |m.history[a]| <= 5
    requires OnGoal(outcomes, a, m.tracking[a].goal)
    ensures var n := AbsorbAll(m, outcomes);
      a in n.tracking && n.tracking[a] == m.tracking[a] && a in n.history &&
      LastFive(m.history[a], Named(outcomes, a), n.history[a])
  {
    if outcomes != [] {
      var front, last := outcomes[..|outcomes| - 1], outcomes[|outcomes| - 1];
      HistoryIsLastFive(m, front, a);
      GoalKept(m, outcomes, a);
      HistoryStep(AbsorbAll(m, front), last, a, m.history[a], Named(front, a));
    }
  }

  lemma HistoryStep(m: Metrics, o: Outcome, a: Id, before: seq<string>, caps: seq<string>)
    requires a in m.tracking && a in m.history && LastFive(before, caps, m.history[a])
    requires o.agent == a ==> o.Failed? || (o.goal == m.tracking[a].goal && o.progress < 1.0)
    ensures var more := if o.Ran? && o.agent == a && o.cap != "" then [o.cap] else [];
      a in Absorb(m, o).history && LastFive(before, caps + more, Absorb(m, o).history[a])
  {
    if o.agent != a {
      AbsorbOther(m, o, a);
      assert caps + [] == caps;
    } else if o.Ran? && o.cap != "" {
      PushedFive(before, caps, m.history[a], o.cap);
    } else {
      assert caps + [] == caps;
    }
  }

  lemma PushedFive(before: seq<string>, caps: seq<string>, h: seq<string>, cap: string)
    requires LastFive(before, caps, h)
    ensures LastFive(before, caps + [cap], Push(h, cap))
  {
    assert before + (caps + [cap]) == (before + caps) + [cap];
  }

  predicate EndsInFour(caps: seq<string>) {
    |caps| >= 4 && caps[|caps| - 1] == caps[|caps| - 2] == caps[|caps| - 3] == caps[|caps| - 4]
  }

  /** The repetition rule: four capabilities or more were named on the goal, and the last four are the same. */
  lemma RepetitionRule(m: Metrics, outcomes: seq<Outcome>, a: Id)
    requires a in m.tracking && a in m.history && |m.history[a]| <= 5
    requires OnGoal(outcomes, a, m.tracking[a].goal)
    ensures var caps := m.history[a] + Named(outcomes, a);
      Repeats(AbsorbAll(m, outcomes), a) <==> EndsInFour(caps)
  {
    HistoryIsLastFive(m, outcomes, a);
    RepeatsOfHistory(AbsorbAll(m, outcomes), a, m.history[a], Named(outcomes, a));
  }

  lemma RepeatsOfHistory(m: Metrics, a: Id, before: seq<string>, named: seq<string>)
    requires a in m.history && LastFive(before, named, m.history[a])
    ensures var caps := before + named;
      Repeats(m, a) <==> EndsInFour(caps)
  {
    var h, caps := m.history[a], before + named;
    if |caps| >= 4 {
      var n, k := |h|, |caps|;
      assert h[n - 1] == caps[k - 1] && h[n - 2] == caps[k - 2] && h[n - 3] == caps[k - 3] && h[n - 4] == caps[k - 4];
      LastFourSame(h);
    }
  }

  lemma LastFourSame(h: seq<string>)
    requires |h| >= 4
    ensures (forall i :: |h| - REPEAT_LIMIT <= i < |h| ==> h[i] == h[|h| - 1]) <==>
            h[|h| - 1] == h[|h| - 2] == h[|h| - 3] == h[|h| - 4]
  {
  }

  /** What an outcome does to the counters: a finished goal is counted and leaves the stall counts alone. */
  ghost predicate CountedFor(m: Metrics, n: Metrics, a: Id, progress: real, prev: real) {
    n.cycles == m.cycles && n.errors == m.errors && n.stalled - {a} == m.stalled - {a} &&
    if progress >= 1.0 then n.completed == m.completed + 1 && n.stalled == m.stalled && n.skipped == m.skipped
    else
      n.completed == m.completed && a in n.stalled &&
      if progress == prev
      then n.skipped == m.skipped && n.stalled[a] == 1 + if a in m.stalled then m.stalled[a] else 0
      else n.skipped == m.skipped - {a} && n.stalled[a] == 0
  }

  /** What it does to the goal and the history: both are forgotten with the goal, a new goal starts now. */
  ghost predicate TrackedFor(m: Metrics, n: Metrics, a: Id, progress: real, cap: string, goal: string) {
    n.history - {a} == m.history - {a} && n.tracking - {a} == m.tracking - {a} &&
    if progress >= 1.0 then a !in n.history && a !in n.tracking
    else if a in m.tracking && m.tracking[a].goal != goal
    then a !in n.history && a in n.tracking && n.tracking[a] == Tracked(goal, m.cycles)
    else
      a in n.tracking && n.tracking[a] == (if a in m.tracking then m.tracking[a] else Tracked(goal, m.cycles)) &&
      if cap == "" then n.history == m.history
      else
        a in n.history &&
        ((a in m.history ==> |m.history[a]| <= 5) ==>
         LastFive(if a in m.history then m.history[a] else [], [cap], n.history[a]))
  }

  lemma GoalNoted(m: Metrics, a: Id, goal: string)
    ensures var n := NotedGoal(m, a, goal);
      n.history - {a} == m.history - {a} && n.tracking - {a} == m.tracking - {a} && a in n.tracking &&
      if a in m.tracking && m.tracking[a].goal != goal
      then a !in n.history && n.tracking[a] == Tracked(goal, m.cycles)
      else
        n.tracking[a] == (if a in m.tracking then m.tracking[a] else Tracked(goal, m.cycles)) &&
        n.history == m.history
  {
  }

  lemma CapNoted(m: Metrics, a: Id, cap: string)
    requires a in m.history ==> |m.history[a]| <= 5
    ensures var n := NotedCap(m, a, cap);
      if cap == "" then n == m
      else a in n.history && LastFive(if a in m.history then m.history[a] else [], [cap], n.history[a])
  {
    var h := if a in m.history then m.history[a] else [];
    assert h + [] == h && [] + [cap] == [cap];
    PushedFive(h, [], h, cap);
  }

  lemma RecordedRight(m: Metrics, a: Id, progress: real, prev: real, cap: string, goal: string)
    ensures CountedFor(m, Recorded(m, a, progress, prev, cap, goal), a, progress, prev)
    ensures TrackedFor(m, Recorded(m, a, progress, prev, cap, goal), a, progress, cap, goal)
  {
    var noted := NotedCap(m, a, cap);
    assert Without(m.history, a) - {a} == m.history - {a} && Without(m.tracking, a) - {a} == m.tracking - {a};
    assert noted.history - {a} == m.history - {a};
    GoalNoted(noted, a, goal);
    if a in m.history ==> |m.history[a]| <= 5 {
      CapNoted(m, a, cap);
    }
    RecordedCounts(m, a, progress, prev, cap, goal);
  }

  lemma RecordedCounts(m: Metrics, a: Id, progress: real, prev: real, cap: string, goal: string)
    ensures CountedFor(m, Recorded(m, a, progress, prev, cap, goal), a, progress, prev)
  {
    var noted := NotedGoal(NotedCap(m, a, cap), a, goal);
    NotedKeepsCounts(m, a, cap, goal);
    if progress < 1.0 {
      ProgressNoted(noted, a, progress, prev);
    }
  }

  lemma NotedKeepsCounts(m: Metrics, a: Id, cap: string, goal: string)
    ensures var n := NotedGoal(NotedCap(m, a, cap), a, goal);
      n.stalled == m.stalled && n.skipped == m.skipped && n.completed == m.completed && n.errors == m.errors &&
      n.cycles == m.cycles
  {
  }

  lemma ProgressNoted(m: Metrics, a: Id, progress: real, prev: real)
    requires progress < 1.0
    ensures CountedFor(m, NotedProgress(m, a, progress, prev), a, progress, prev)
  {
  }

  // ---------- what the no-progress rule counts ----------

  /** An outcome of `a` that brought nothing: an error, or no progress on an unfinished goal. */
  predicate Idle(o: Outcome, a: Id) {
    o.agent == a && (o.Failed? || (o.progress < 1.0 && o.progress == o.prev))
  }

  /** Progress of `a` short of the end. */
  predicate Advances(o: Outcome, a: Id) {
    o.agent == a && o.Ran? && o.progress < 1.0 && o.progress != o.prev
  }

  ghost function IdleSince(outcomes: seq<Outcome>, a: Id, k: nat): set<nat> {
    set j: nat | k <= j < |outcomes| && Idle(outcomes[j], a)
  }

  /** The last progress of `a`, or the beginning if there was none. */
  ghost predicate LastAdvance(outcomes: seq<Outcome>, a: Id, k: nat) {
    k <= |outcomes| && (k > 0 ==> Advances(outcomes[k - 1], a)) &&
    forall j :: k <= j < |outcomes| ==> !Advances(outcomes[j], a)
  }

  /**
   * The count is the number of idle outcomes since the last progress, added to what it was if there was none; a
   * finished goal neither adds to it nor clears it.
   */
  lemma {:induction false} CountIsIdleOutcomes(m: Metrics, outcomes: seq<Outcome>, a: Id) returns (k: nat)
    ensures LastAdvance(outcomes, a, k)
    ensures StallCount(AbsorbAll(m, outcomes), a) ==
            (if k == 0 then StallCount(m, a) else 0) + |IdleSince(outcomes, a, k)|
  {
    if outcomes == [] {
      k := 0;
      assert IdleSince(outcomes, a, 0) == {};
    } else {
      var front, last := outcomes[..|outcomes| - 1], outcomes[|outcomes| - 1];
      k := CountIsIdleOutcomes(m, front, a);
      CountStep(AbsorbAll(m, front), last, a);
      IdleSnoc(outcomes, a, k);
      k := if Advances(last, a) then |outcomes| else k;
    }
  }

  lemma IdleSnoc(outcomes: seq<Outcome>, a: Id, k: nat)
    requires k < |outcomes|
    ensures var front, last := outcomes[..|outcomes| - 1], outcomes[|outcomes| - 1];
      |IdleSince(outcomes, a, k)| == |IdleSince(front, a, k)| + (if Idle(last, a) then 1 else 0) &&
      IdleSince(outcomes, a, |outcomes|) == {}
  {
    var n := |outcomes| - 1;
    var front, last := outcomes[..n], outcomes[n];
    assert IdleSince(outcomes, a, k) == if Idle(last, a) then IdleSince(front, a, k) + {n} else IdleSince(front, a, k);
  }

  lemma CountStep(m: Metrics, o: Outcome, a: Id)
    ensures StallCount(Absorb(m, o), a) ==
            if Advances(o, a) then 0 else StallCount(m, a) + if Idle(o, a) then 1 else 0
  {
  }

  /** The outcomes of a run, in the order they came in. */
  function AllOutcomes(inputs: seq<Input>): seq<Outcome> {
    if inputs == [] then [] else AllOutcomes(inputs[..|inputs| - 1]) + inputs[|inputs| - 1].outcomes
  }

  /** In no cycle of the run is `a` skipped for a stall or let go by the drain. */
  ghost predicate Undisturbed(m: Metrics, inputs: seq<Input>, a: Id, repaired: bool) {
    inputs == [] ||
    (var before, i := Run(m, inputs[..|inputs| - 1], repaired), inputs[|inputs| - 1];
     Undisturbed(m, inputs[..|inputs| - 1], a, repaired) && a !in i.released &&
     !(a in i.withGoals && a !in before.skipped && IsStalled(Begun(before), a)))
  }

  lemma {:induction false} SameCount(m: Metrics, n: Metrics, outcomes: seq<Outcome>, a: Id)
    requires StallCount(m, a) == StallCount(n, a)
    ensures StallCount(AbsorbAll(m, outcomes), a) == StallCount(AbsorbAll(n, outcomes), a)
  {
    if outcomes != [] {
      var front, last := outcomes[..|outcomes| - 1], outcomes[|outcomes| - 1];
      SameCount(m, n, front, a);
      CountStep(AbsorbAll(m, front), last, a);
      CountStep(AbsorbAll(n, front), last, a);
    }
  }

  lemma {:induction false} AbsorbConcat(m: Metrics, a: seq<Outcome>, b: seq<Outcome>)
    ensures AbsorbAll(m, a + b) == AbsorbAll(AbsorbAll(m, a), b)
  {
    if b == [] {
      assert a + b == a;
    } else {
      AbsorbConcat(m, a, b[..|b| - 1]);
      assert (a + b)[..|a + b| - 1] == a + b[..|b| - 1];
    }
  }

  lemma {:induction false} CountOverRun(m: Metrics, inputs: seq<Input>, a: Id, repaired: bool)
    requires PossibleRun(m, inputs, repaired) && Undisturbed(m, inputs, a, repaired)
    ensures StallCount(Run(m, inputs, repaired), a) == StallCount(AbsorbAll(m, AllOutcomes(inputs)), a)
  {
    if inputs != [] {
      var front, i := inputs[..|inputs| - 1], inputs[|inputs| - 1];
      var before := Run(m, front, repaired);
      CountOverRun(m, front, a, repaired);
      RunsIff(before, i, a, repaired);
      SameCount(Chosen(before, i.withGoals, repaired).metrics, AbsorbAll(m, AllOutcomes(front)), i.outcomes, a);
      AbsorbConcat(m, AllOutcomes(front), i.outcomes);
    }
  }

  /**
   * Over every run in which the agent is neither skipped nor let go, whatever happens to the others: its count is the
   * number of its idle outcomes since its last progress, and the no-progress rule holds once there are five.
   */
  lemma NoProgressRule(m: Metrics, inputs: seq<Input>, a: Id, repaired: bool) returns (k: nat)
    requires PossibleRun(m, inputs, repaired) && Undisturbed(m, inputs, a, repaired)
    ensures LastAdvance(AllOutcomes(inputs), a, k)
    ensures var idle := (if k == 0 then StallCount(m, a) else 0) + |IdleSince(AllOutcomes(inputs), a, k)|;
      StallCount(Run(m, inputs, repaired), a) == idle && (idle >= 5 ==> IsStalled(Run(m, inputs, repaired), a))
  {
    CountOverRun(m, inputs, a, repaired);
    k := CountIsIdleOutcomes(m, AllOutcomes(inputs), a);
  }

  /** An agent that is skipped for a stall begins to cool with a count of zero. */
  lemma SkippedIsZero(m: Metrics, i: Input, a: Id, repaired: bool)
    requires Possible(m, i, repaired) && a in i.withGoals && a !in m.skipped && IsStalled(Begun(m), a)
    ensures StallCount(AbsorbAll(Chosen(m, i.withGoals, repaired).metrics, i.outcomes), a) == 0
    ensures StallCount(Cycle(m, i, repaired), a) == 0
  {
    RunsIff(m, i, a, repaired);
    AbsorbOthers(Chosen(m, i.withGoals, repaired).metrics, i.outcomes, a);
  }

  // ---------- how long cooling lasts ----------

  /** No agent is skipped anew in this cycle. */
  ghost predicate NobodyCools(m: Metrics, i: Input, repaired: bool) {
    Chosen(m, i.withGoals, repaired).metrics.skipped == m.skipped
  }

  ghost predicate NobodyCoolsIn(m: Metrics, inputs: seq<Input>, repaired: bool) {
    inputs == [] ||
    (NobodyCoolsIn(m, inputs[..|inputs| - 1], repaired) &&
     NobodyCools(Run(m, inputs[..|inputs| - 1], repaired), inputs[|inputs| - 1], repaired))
  }

  lemma {:induction false} SelectKeepsCycles(m: Metrics, agents: seq<Id>, repaired: bool)
    ensures Select(m, agents, repaired).metrics.cycles == m.cycles
  {
    if agents != [] {
      SelectKeepsCycles(m, agents[..|agents| - 1], repaired);
    }
  }

  /** A cycle in which nobody is skipped anew lets two cooling agents go when it drains. */
  lemma CycleReleases(m: Metrics, i: Input, repaired: bool)
    requires Possible(m, i, repaired) && NobodyCools(m, i, repaired)
    ensures var n := Cycle(m, i, repaired);
      n.cycles == m.cycles + 1 && n.skipped <= m.skipped &&
      (n.cycles % DRAIN_PERIOD == 0 ==> |n.skipped| <= |m.skipped| - RELEASE_BATCH || n.skipped == {})
  {
    var s := Chosen(m, i.withGoals, repaired).metrics;
    var d := AbsorbAll(s, i.outcomes);
    SelectKeepsCycles(Begun(m), Active(i.withGoals, m.skipped), repaired);
    AbsorbKeepsCycles(s, i.outcomes);
    SubsetSize(d.skipped, m.skipped);
    if Drains(d) {
      assert |d.skipped - i.released| == |d.skipped| - |i.released|;
    }
  }

  lemma {:induction false} CoolingShrinks(m: Metrics, inputs: seq<Input>, repaired: bool)
    requires PossibleRun(m, inputs, repaired) && NobodyCoolsIn(m, inputs, repaired)
    ensures var n := Run(m, inputs, repaired);
      n.cycles == m.cycles + |inputs| && n.skipped <= m.skipped && Shrunk(m, n)
  {
    if inputs != [] {
      var before := Run(m, inputs[..|inputs| - 1], repaired);
      CoolingShrinks(m, inputs[..|inputs| - 1], repaired);
      CycleReleases(before, inputs[|inputs| - 1], repaired);
      ShrunkMore(m, before, Run(m, inputs, repaired));
    }
  }

  /** All are released, or two for every tenth cycle passed. */
  ghost predicate Shrunk(m: Metrics, n: Metrics) {
    n.skipped == {} ||
    |n.skipped| <= |m.skipped| - RELEASE_BATCH * (n.cycles / DRAIN_PERIOD - m.cycles / DRAIN_PERIOD)
  }

  lemma ShrunkMore(m: Metrics, before: Metrics, n: Metrics)
    requires Shrunk(m, before) && m.cycles <= before.cycles && n.cycles == before.cycles + 1
    requires n.skipped <= before.skipped
    requires n.cycles % DRAIN_PERIOD == 0 ==> |n.skipped| <= |before.skipped| - RELEASE_BATCH || n.skipped == {}
    ensures Shrunk(m, n)
  {
    SubsetSize(n.skipped, before.skipped);
    if before.skipped == {} {
      assert n.skipped == {};
    }
    assert n.cycles / DRAIN_PERIOD == before.cycles / DRAIN_PERIOD + if n.cycles % DRAIN_PERIOD == 0 then 1 else 0;
  }

  /** While nobody is skipped anew, `k` cooling agents are all released within ten cycles for every two of them. */
  lemma AllReleasedInTime(m: Metrics, inputs: seq<Input>, repaired: bool)
    requires PossibleRun(m, inputs, repaired) && NobodyCoolsIn(m, inputs, repaired)
    requires |inputs| >= DRAIN_PERIOD * ((|m.skipped| + 1) / RELEASE_BATCH)
    ensures Run(m, inputs, repaired).skipped == {}
  {
    CoolingShrinks(m, inputs, repaired);
    var n := Run(m, inputs, repaired);
    assert n.cycles / DRAIN_PERIOD - m.cycles / DRAIN_PERIOD >= (|m.skipped| + 1) / RELEASE_BATCH;
  }

  // ---------- the repaired skip step ----------

  ghost predicate Cleared(m: Metrics, a: Id) {
    StallCount(m, a) == 0 && a !in m.history && a !in m.tracking
  }

  ghost predicate CoolingIsCleared(m: Metrics) {
    forall a :: a in m.skipped ==> Cleared(m, a)
  }

  /** Repaired: what cools is clear, and stays so until it is released and has run. */
  lemma RepairedKeepsCooling(m: Metrics, i: Input)
    requires Possible(m, i, true) && CoolingIsCleared(m)
    ensures CoolingIsCleared(AbsorbAll(Chosen(m, i.withGoals, true).metrics, i.outcomes))
    ensures CoolingIsCleared(Cycle(m, i, true))
  {
    var s := Chosen(m, i.withGoals, true).metrics;
    var d := AbsorbAll(s, i.outcomes);
    AbsorbKeepsCycles(s, i.outcomes);
    forall a | a in d.skipped ensures Cleared(d, a) {
      RunsIff(m, i, a, true);
      assert !Runs(m, i, a, true) by {
        assert a in s.skipped;
      }
      AbsorbOthers(s, i.outcomes, a);
    }
  }

  lemma {:induction false} RepairedRunKeepsCooling(inputs: seq<Input>)
    requires PossibleRun(INITIAL, inputs, true)
    ensures CoolingIsCleared(Run(INITIAL, inputs, true))
  {
    if inputs != [] {
      RepairedRunKeepsCooling(inputs[..|inputs| - 1]);
      RepairedKeepsCooling(Run(INITIAL, inputs[..|inputs| - 1], true), inputs[|inputs| - 1]);
    }
  }

  /** Repaired: an agent that the drain lets go leaves with nothing held against it. */
  lemma ReleasedIsCleared(inputs: seq<Input>, i: Input, a: Id)
    requires PossibleRun(INITIAL, inputs, true) && Possible(Run(INITIAL, inputs, true), i, true)
    requires var m := Run(INITIAL, inputs, true);
      var d := AbsorbAll(Chosen(m, i.withGoals, true).metrics, i.outcomes);
      Drains(d) && a in i.released
    ensures var n := Cycle(Run(INITIAL, inputs, true), i, true); a !in n.skipped && Cleared(n, a)
  {
    RepairedRunKeepsCooling(inputs);
    RepairedKeepsCooling(Run(INITIAL, inputs, true), i);
  }

  /** Repaired: a cleared agent waits cleared, and runs in the first cycle that finds it a goal. */
  lemma {:induction false} RepairedReturns(m: Metrics, idle: seq<Input>, i: Input, a: Id)
    requires Cleared(m, a) && a !in m.skipped
    requires PossibleRun(m, idle, true) && forall k :: 0 <= k < |idle| ==> a !in idle[k].withGoals
    requires Possible(Run(m, idle, true), i, true) && a in i.withGoals
    ensures Runs(Run(m, idle, true), i, a, true)
  {
    RepairedWaits(m, idle, a);
    RunsIff(Run(m, idle, true), i, a, true);
  }

  lemma {:induction false} RepairedWaits(m: Metrics, idle: seq<Input>, a: Id)
    requires Cleared(m, a) && a !in m.skipped
    requires PossibleRun(m, idle, true) && forall k :: 0 <= k < |idle| ==> a !in idle[k].withGoals
    ensures Cleared(Run(m, idle, true), a) && a !in Run(m, idle, true).skipped
  {
    if idle != [] {
      var front, last := idle[..|idle| - 1], idle[|idle| - 1];
      RepairedWaits(m, front, a);
      RunsIff(Run(m, front, true), last, a, true);
      AbsorbOthers(Chosen(Run(m, front, true), last.withGoals, true).metrics, last.outcomes, a);
    }
  }

  /** The cycle in which a cooling agent was let go. */
  lemma {:induction false} ReleasedAt(m: Metrics, inputs: seq<Input>, a: Id) returns (k: nat)
    requires a in m.skipped && a !in Run(m, inputs, true).skipped
    ensures k < |inputs| && a in Run(m, inputs[..k], true).skipped && a !in Run(m, inputs[..k + 1], true).skipped
  {
    var n := |inputs| - 1;
    assert inputs != [];
    assert inputs[..n + 1] == inputs;
    if a in Run(m, inputs[..n], true).skipped {
      k := n;
    } else {
      k := ReleasedAt(m, inputs[..n], a);
      assert inputs[..n][..k] == inputs[..k] && inputs[..n][..k + 1] == inputs[..k + 1];
    }
  }

  lemma {:induction false} PrefixIsPossible(m: Metrics, inputs: seq<Input>, k: nat)
    requires PossibleRun(m, inputs, true) && k < |inputs|
    ensures PossibleRun(m, inputs[..k], true) && Possible(Run(m, inputs[..k], true), inputs[k], true)
  {
    var front := inputs[..|inputs| - 1];
    if k < |front| {
      PrefixIsPossible(m, front, k);
      assert front[..k] == inputs[..k] && front[k] == inputs[k];
    } else {
      assert inputs[..k] == front;
    }
  }

  /**
   * Repaired: while nobody is skipped anew, each of `k` cooling agents leaves the cooling set within ten cycles for
   * every two of them, with nothing held against it, and by `RepairedReturns` runs in its next cycle with a goal.
   */
  lemma RepairedReleasesInTime(m: Metrics, inputs: seq<Input>, a: Id) returns (k: nat)
    requires CoolingIsCleared(m) && a in m.skipped
    requires PossibleRun(m, inputs, true) && NobodyCoolsIn(m, inputs, true)
    requires |inputs| >= DRAIN_PERIOD * ((|m.skipped| + 1) / RELEASE_BATCH)
    ensures k < |inputs| && a !in Run(m, inputs[..k + 1], true).skipped && Cleared(Run(m, inputs[..k + 1], true), a)
  {
    AllReleasedInTime(m, inputs, true);
    k := ReleasedAt(m, inputs, a);
    ReleasedCleared(m, inputs, k, a);
  }

  lemma ReleasedCleared(m: Metrics, inputs: seq<Input>, k: nat, a: Id)
    requires CoolingIsCleared(m) && PossibleRun(m, inputs, true) && k < |inputs|
    requires a in Run(m, inputs[..k], true).skipped
    ensures Cleared(Run(m, inputs[..k + 1], true), a)
  {
    var front := inputs[..k];
    PrefixIsPossible(m, inputs, k);
    RunKeepsCleared(m, front);
    assert inputs[..k + 1][..k] == front && inputs[..k + 1][k] == inputs[k];
    CoolingLeavesCleared(Run(m, front, true), inputs[k], a);
  }

  lemma {:induction false} RunKeepsCleared(m: Metrics, inputs: seq<Input>)
    requires CoolingIsCleared(m) && PossibleRun(m, inputs, true)
    ensures CoolingIsCleared(Run(m, inputs, true))
  {
    if inputs != [] {
      RunKeepsCleared(m, inputs[..|inputs| - 1]);
      RepairedKeepsCooling(Run(m, inputs[..|inputs| - 1], true), inputs[|inputs| - 1]);
    }
  }

  /** A cooling agent is not run, so it can leave only by the drain, which clears what was left. */
  lemma CoolingLeavesCleared(m: Metrics, i: Input, a: Id)
    requires CoolingIsCleared(m) && Possible(m, i, true) && a in m.skipped
    ensures Cleared(Cycle(m, i, true), a)
  {
    var s := Chosen(m, i.withGoals, true).metrics;
    RunsIff(m, i, a, true);
    AbsorbOthers(s, i.outcomes, a);
  }

  // ---------- the metrics object ----------

  class DaemonMetrics {
    var cycles: nat
    var completed: nat
    var errors: nat
    var stalled: map<Id, nat>
    var skipped: set<Id>
    var history: map<Id, seq<string>>
    var tracking: map<Id, Tracked>

    function View(): Metrics
      reads this
    {
      Metrics(cycles, completed, errors, stalled, skipped, history, tracking)
    }

    constructor ()
      ensures View() == INITIAL
    {
      cycles, completed, errors := 0, 0, 0;
      stalled, skipped, history, tracking := map[], {}, map[], map[];
    }

    method RecordOutcome(a: Id, progress: real, prev: real, cap: string, goal: string)
      modifies this
      ensures View() == Recorded(old(View()), a, progress, prev, cap, goal)
      ensures CountedFor(old(View()), View(), a, progress, prev)
      ensures TrackedFor(old(View()), View(), a, progress, cap, goal)
    {
      RecordedRight(View(), a, progress, prev, cap, goal);
      if progress >= 1.0 {
        completed := completed + 1;
        history := Without(history, a);
        tracking := Without(tracking, a);
        return;
      }
      if cap != "" {
        history := history[a := Push(if a in history then history[a] else [], cap)];
      }
      assert View() == NotedCap(old(View()), a, cap);
      if a in tracking && tracking[a].goal != goal {
        tracking := tracking[a := Tracked(goal, cycles)];
        history := Without(history, a);
      } else if a !in tracking {
        tracking := tracking[a := Tracked(goal, cycles)];
      }
      assert View() == NotedGoal(NotedCap(old(View()), a, cap), a, goal);
      if progress == prev {
        stalled := stalled[a := StallCount(View(), a) + 1];
      } else {
        stalled := stalled[a := 0];
        skipped := skipped - {a};
      }
    }

    /** The first half of a cycle: count it, and split the active agents into runnable and newly cooling. */
    method SelectRunnable(withGoals: seq<Id>) returns (runnable: seq<Id>)
      modifies this
      ensures View() == Chosen(old(View()), withGoals, false).metrics
      ensures runnable == Chosen(old(View()), withGoals, false).runnable
    {
      cycles := cycles + 1;
      var active := Active(withGoals, skipped);
      runnable := [];
      for i := 0 to |active|
        invariant Select(Begun(old(View())), active[..i], false) == Selection(View(), runnable)
      {
        assert active[..i + 1][..i] == active[..i];
        var a := active[i];
        if IsStalled(View(), a) {
          skipped := skipped + {a};
          stalled := stalled[a := 0];
        } else {
          runnable := runnable + [a];
        }
      }
      assert active[..|active|] == active;
    }

    /** The middle: outcomes as the workers complete. */
    method CollectOutcomes(outcomes: seq<Outcome>)
      modifies this
      ensures View() == AbsorbAll(old(View()), outcomes)
    {
      for i := 0 to |outcomes|
        invariant View() == AbsorbAll(old(View()), outcomes[..i])
      {
        assert outcomes[..i + 1][..i] == outcomes[..i];
        match outcomes[i] {
          case Ran(a, progress, prev, cap, goal) =>
            RecordOutcome(a, progress, prev, cap, goal);
          case Failed(a) =>
            errors := errors + 1;
            stalled := stalled[a := (if a in stalled then stalled[a] else 0) + 1];
        }
      }
      assert outcomes[..|outcomes|] == outcomes;
    }

    /** The end: every tenth cycle the drain lets the agents of `released` go. */
    method Drain(released: set<Id>)
      modifies this
      ensures View() == Drained(old(View()), released)
      ensures old(skipped) != {} && cycles % 10 == 0 ==>
                skipped == old(skipped) - released && stalled - released == old(stalled) - released &&
                forall a :: a in released ==> a in stalled && stalled[a] == 0
      ensures old(skipped) == {} || cycles % 10 != 0 ==> unchanged(this)
    {
      if cycles % DRAIN_PERIOD == 0 && skipped != {} {
        skipped := skipped - released;
        stalled := ZeroAll(stalled, released);
      }
    }

    method RunCycle(i: Input)
      modifies this
      ensures View() == Cycle(old(View()), i, false)
    {
      var runnable := SelectRunnable(i.withGoals);
      CollectOutcomes(i.outcomes);
      Drain(i.released);
    }
  }
}
