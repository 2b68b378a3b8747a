/** The agent registry: records that are updated in place, spawn depth and lineage, and named locks with expiry. */
module Registry {
  import opened Wrappers

  type Id = string

  const ROOT: Id := "root"
  const MAX_SPAWN_DEPTH: nat := 5

  datatype Status = Active | Suspended | Terminated

  datatype Lock = Lock(acquired: real, expires: real)

  /** The fields of a record that this model follows, as a value. */
  datatype Record = Record(parent: Option<Id>, depth: nat, status: Status, usage: map<string, int>,
                           metadata: map<string, string>, locks: map<string, Lock>, task: Option<string>)

  type Agents = map<Id, Record>

  // ---------- the operations on values ----------

  function DepthUnder(agents: Agents, parent: Option<Id>): nat {
    if parent.Some? && parent.value != "" && parent.value in agents then agents[parent.value].depth + 1 else 0
  }

  function NewUsage(): map<string, int> {
    map["shell_calls" := 0, "tokens_in" := 0, "tokens_out" := 0]
  }

  function Registered(agents: Agents, id: Id, parent: Option<Id>, metadata: map<string, string>): Agents {
    if DepthUnder(agents, parent) > MAX_SPAWN_DEPTH then agents
    else agents[id := Record(parent, DepthUnder(agents, parent), Active, NewUsage(), metadata, map[], None)]
  }

  function Unexpired(locks: map<string, Lock>, now: real): map<string, Lock> {
    map n | n in locks && locks[n].expires >= now :: locks[n]
  }

  function Purged(agents: Agents, now: real): Agents {
    map a | a in agents :: PurgedRecord(agents[a], now)
  }

  function PurgedRecord(r: Record, now: real): Record {
    r.(locks := Unexpired(r.locks, now))
  }

  /** Nobody else has the name in their lock table. */
  predicate Unclaimed(agents: Agents, id: Id, name: string) {
    forall a :: a in agents && a != id ==> name !in agents[a].locks
  }

  predicate Granted(agents: Agents, id: Id, name: string, now: real) {
    id in agents && Unclaimed(Purged(agents, now), id, name)
  }

  function WithLock(agents: Agents, id: Id, name: string, lock: Lock): Agents
    requires id in agents
  {
    agents[id := agents[id].(locks := agents[id].locks[name := lock])]
  }

  function Acquired(agents: Agents, id: Id, name: string, now: real, ttl: real): Agents {
    if Granted(agents, id, name, now) then WithLock(Purged(agents, now), id, name, Lock(now, now + ttl))
    else Purged(agents, now)
  }

  function Released(agents: Agents, id: Id, name: string): Agents {
    if id in agents && name in agents[id].locks
    then agents[id := agents[id].(locks := agents[id].locks - {name})]
    else agents
  }

  function Adopted(r: Record, orphaned: Id): Record {
    if r.parent == Some(orphaned) && r.status != Terminated then r.(parent := Some(ROOT)) else r
  }

  function Ended(agents: Agents, id: Id): Agents {
    if id == ROOT || id !in agents then agents
    else map a | a in agents :: AfterEnd(agents[a], a, id)
  }

  function AfterEnd(r: Record, a: Id, ended: Id): Record {
    if a == ended then Adopted(r, ended).(status := Terminated) else Adopted(r, ended)
  }

  // ---------- runs ----------

  datatype State = State(agents: Agents, clock: real)

  datatype Step =
    | Register(id: Id, parent: Option<Id>, metadata: map<string, string>)
    | Acquire(id: Id, name: string, ttl: real)
    | Release(id: Id, name: string)
    | Terminate(id: Id)
    | Tick(now: real)

  function Apply(s: State, step: Step): State {
    match step
    case Register(id, parent, metadata) => s.(agents := Registered(s.agents, id, parent, metadata))
    case Acquire(id, name, ttl) => s.(agents := Acquired(s.agents, id, name, s.clock, ttl))
    case Release(id, name) => s.(agents := Released(s.agents, id, name))
    case Terminate(id) => s.(agents := Ended(s.agents, id))
    case Tick(now) => if now < s.clock then s else s.(clock := now)
  }

  /** A new identifier is one that no record has or mentions. */
  predicate Possible(s: State, step: Step) {
    step.Register? ==>
      step.id != "" && step.id !in s.agents && step.parent != Some(step.id) &&
      forall a :: a in s.agents ==> s.agents[a].parent != Some(step.id)
  }

  function Run(s: State, steps: seq<Step>): State {
    if steps == [] then s else Apply(Run(s, steps[..|steps| - 1]), steps[|steps| - 1])
  }

  predicate PossibleRun(s: State, steps: seq<Step>) {
    steps == [] ||
    (PossibleRun(s, steps[..|steps| - 1]) && Possible(Run(s, steps[..|steps| - 1]), steps[|steps| - 1]))
  }

  // ---------- locks exclude ----------

  ghost predicate Exclusive(agents: Agents) {
    forall a, b, n :: a in agents && b in agents && n in agents[a].locks && n in agents[b].locks ==> a == b
  }

  /** An acquire succeeds exactly when the agent is known and nobody else holds the name unexpired. */
  lemma GrantedIff(agents: Agents, id: Id, name: string, now: real)
    ensures Granted(agents, id, name, now) <==>
      id in agents &&
      forall a :: a in agents && a != id && name in agents[a].locks ==> agents[a].locks[name].expires < now
  {
    forall a | a in agents
      ensures name in Purged(agents, now)[a].locks <==> name in agents[a].locks && agents[a].locks[name].expires >= now
    {
    }
  }

  lemma PurgedKeepsExclusive(agents: Agents, now: real)
    requires Exclusive(agents)
    ensures Exclusive(Purged(agents, now))
  {
    FewerLocksExclusive(agents, Purged(agents, now));
  }

  lemma AcquiredKeepsExclusive(agents: Agents, id: Id, name: string, now: real, ttl: real)
    requires Exclusive(agents)
    ensures Exclusive(Acquired(agents, id, name, now, ttl))
  {
    PurgedKeepsExclusive(agents, now);
  }

  lemma FewerLocksExclusive(before: Agents, after: Agents)
    requires Exclusive(before)
    requires forall a, n :: a in after && n in after[a].locks ==> a in before && n in before[a].locks
    ensures Exclusive(after)
  {
  }

  lemma StepKeepsExclusive(s: State, step: Step)
    requires Exclusive(s.agents)
    ensures Exclusive(Apply(s, step).agents)
  {
    match step
    case Acquire(id, name, ttl) => AcquiredKeepsExclusive(s.agents, id, name, s.clock, ttl);
    case Release(id, name) => FewerLocksExclusive(s.agents, Released(s.agents, id, name));
    case Terminate(id) => FewerLocksExclusive(s.agents, Ended(s.agents, id));
    case Register(id, parent, metadata) =>
    case Tick(now) =>
  }

  /** Over every run no lock name is held by two agents. */
  lemma {:induction false} NoNameHeldTwice(s: State, steps: seq<Step>)
    requires Exclusive(s.agents)
    ensures Exclusive(Run(s, steps).agents)
  {
    if steps != [] {
      NoNameHeldTwice(s, steps[..|steps| - 1]);
      StepKeepsExclusive(Run(s, steps[..|steps| - 1]), steps[|steps| - 1]);
    }
  }

  ghost predicate Holds(s: State, id: Id, name: string, expires: real) {
    id in s.agents && name in s.agents[id].locks && s.agents[id].locks[name].expires == expires
  }

  /** The only steps by which a holder can lose or change a lock that has not expired. */
  predicate ByHolder(step: Step, id: Id, name: string) {
    (step.Release? || step.Acquire?) && step.id == id && step.name == name
  }

  lemma StepKeepsHolder(s: State, step: Step, id: Id, name: string, expires: real)
    requires Holds(s, id, name, expires) && s.clock <= expires
    requires !ByHolder(step, id, name) && Possible(s, step)
    ensures Holds(Apply(s, step), id, name, expires)
    ensures forall other :: other != id ==> !Granted(s.agents, other, name, s.clock)
  {
    forall other | other != id ensures !Granted(s.agents, other, name, s.clock) {
      assert name in Purged(s.agents, s.clock)[id].locks;
    }
  }

  lemma {:induction false} ClockNeverBack(s: State, steps: seq<Step>)
    ensures s.clock <= Run(s, steps).clock
  {
    if steps != [] {
      ClockNeverBack(s, steps[..|steps| - 1]);
    }
  }

  /** A lock stays with its holder until it expires, whatever others do. */
  lemma {:induction false} HeldUntilExpiry(s: State, steps: seq<Step>, id: Id, name: string, expires: real)
    requires Holds(s, id, name, expires) && PossibleRun(s, steps)
    requires forall i :: 0 <= i < |steps| ==> !ByHolder(steps[i], id, name)
    requires Run(s, steps).clock <= expires
    ensures Holds(Run(s, steps), id, name, expires)
    ensures forall other :: other != id ==> !Granted(Run(s, steps).agents, other, name, Run(s, steps).clock)
  {
    if steps != [] {
      var before, step := Run(s, steps[..|steps| - 1]), steps[|steps| - 1];
      assert before.clock <= Apply(before, step).clock;
      HeldUntilExpiry(s, steps[..|steps| - 1], id, name, expires);
      StepKeepsHolder(before, step, id, name, expires);
    }
    StepKeepsHolder(Run(s, steps), Tick(Run(s, steps).clock), id, name, expires);
  }

  /** Nobody but `id` has the name in their lock table, and its lock ends at `expires`. */
  ghost predicate OnlyHolder(agents: Agents, id: Id, name: string, expires: real) {
    forall a :: a in agents && name in agents[a].locks ==> a == id && agents[a].locks[name].expires == expires
  }

  lemma StepKeepsOnlyHolder(s: State, step: Step, id: Id, name: string, expires: real)
    requires OnlyHolder(s.agents, id, name, expires) && !(step.Acquire? && step.name == name)
    ensures OnlyHolder(Apply(s, step).agents, id, name, expires)
  {
    var t := Apply(s, step);
    forall a | a in t.agents && name in t.agents[a].locks
      ensures a in s.agents && name in s.agents[a].locks && t.agents[a].locks[name] == s.agents[a].locks[name]
    {
    }
  }

  lemma {:induction false} RunKeepsOnlyHolder(s: State, steps: seq<Step>, id: Id, name: string, expires: real)
    requires OnlyHolder(s.agents, id, name, expires)
    requires forall i :: 0 <= i < |steps| ==> !(steps[i].Acquire? && steps[i].name == name)
    ensures OnlyHolder(Run(s, steps).agents, id, name, expires)
  {
    if steps != [] {
      RunKeepsOnlyHolder(s, steps[..|steps| - 1], id, name, expires);
      StepKeepsOnlyHolder(Run(s, steps[..|steps| - 1]), steps[|steps| - 1], id, name, expires);
    }
  }

  lemma GrantedHolds(s: State, id: Id, name: string, ttl: real)
    requires Granted(s.agents, id, name, s.clock)
    ensures var t := Apply(s, Acquire(id, name, ttl));
      Holds(t, id, name, s.clock + ttl) && OnlyHolder(t.agents, id, name, s.clock + ttl) && t.clock == s.clock
  {
  }

  /**
   * A lock that is granted lasts as long as was asked for and no longer: over every run in which its holder does not
   * release it and nobody asks for it, another agent would be granted the name exactly when that time is over.
   */
  lemma LockLastsExactly(s: State, id: Id, name: string, ttl: real, steps: seq<Step>, other: Id)
    requires Granted(s.agents, id, name, s.clock) && PossibleRun(Apply(s, Acquire(id, name, ttl)), steps)
    requires forall i :: 0 <= i < |steps| ==>
      !(steps[i].Acquire? && steps[i].name == name) && !ByHolder(steps[i], id, name)
    requires other != id && other in Run(Apply(s, Acquire(id, name, ttl)), steps).agents
    ensures var end := Run(Apply(s, Acquire(id, name, ttl)), steps);
      Granted(end.agents, other, name, end.clock) <==> end.clock > s.clock + ttl
  {
    var t := Apply(s, Acquire(id, name, ttl));
    var end := Run(t, steps);
    GrantedHolds(s, id, name, ttl);
    RunKeepsOnlyHolder(t, steps, id, name, s.clock + ttl);
    GrantedIff(end.agents, other, name, end.clock);
    if end.clock <= s.clock + ttl {
      HeldUntilExpiry(t, steps, id, name, s.clock + ttl);
    }
  }

  /** Stale locks go; a lock that is granted runs from now for the time asked for; nothing else changes. */
  ghost predicate LocksAfter(before: Agents, after: Agents, ok: bool, id: Id, name: string, now: real, ttl: real) {
    after.Keys == before.Keys &&
    forall a :: a in before ==>
      after[a].(locks := map[]) == before[a].(locks := map[]) &&
      forall n :: (
        if ok && a == id && n == name then n in after[a].locks && after[a].locks[n] == Lock(now, now + ttl)
        else
          (n in after[a].locks <==> n in before[a].locks && before[a].locks[n].expires >= now) &&
          (n in after[a].locks ==> after[a].locks[n] == before[a].locks[n]))
  }

  lemma AcquiredLocks(agents: Agents, id: Id, name: string, now: real, ttl: real)
    ensures LocksAfter(agents, Acquired(agents, id, name, now, ttl), Granted(agents, id, name, now), id, name, now, ttl)
  {
  }

  /** The ended agent is terminated, its living children become children of root, and nothing else changes. */
  ghost predicate EndedRight(before: Agents, after: Agents, id: Id) {
    after.Keys == before.Keys &&
    forall a :: a in before ==>
      after[a].(parent := None, status := Active) == before[a].(parent := None, status := Active) &&
      after[a].status == (if a == id then Terminated else before[a].status) &&
      after[a].parent == if before[a].parent == Some(id) && before[a].status != Terminated then Some(ROOT)
                         else before[a].parent
  }

  lemma EndedIsRight(agents: Agents, id: Id)
    requires id != ROOT
    ensures EndedRight(agents, Ended(agents, id), id) || id !in agents
  {
  }

  // ---------- lineage ----------

  /**
   * A chain starts at the agent, goes from each agent to its parent, repeats none, and stops where the parent is
   * unknown or has been seen.
   */
  ghost predicate Linked(agents: Agents, at: Option<Id>, seen: set<Id>, chain: seq<Id>) {
    (forall i :: 0 <= i < |chain| ==> chain[i] in agents && chain[i] != "" && chain[i] !in seen) &&
    (forall i, j :: 0 <= i < j < |chain| ==> chain[i] != chain[j]) &&
    (chain != [] ==> at == Some(chain[0])) &&
    (forall i :: 0 < i < |chain| ==> agents[chain[i - 1]].parent == Some(chain[i])) &&
    var last := if chain == [] then at else agents[chain[|chain| - 1]].parent;
    last.None? || last.value == "" || last.value !in agents || last.value in seen || last.value in chain
  }

  lemma {:induction false} ChainIsLinked(agents: Agents, at: Option<Id>, seen: set<Id>)
    ensures Linked(agents, at, seen, Chain(agents, at, seen))
    decreases agents.Keys - seen
  {
    var chain := Chain(agents, at, seen);
    if chain != [] {
      assert at.value in agents.Keys - seen;
      ChainIsLinked(agents, agents[at.value].parent, seen + {at.value});
      LinkedFrom(agents, at.value, seen, chain[1..]);
      assert chain == [at.value] + chain[1..];
    }
  }

  lemma LinkedFrom(agents: Agents, a: Id, seen: set<Id>, rest: seq<Id>)
    requires a in agents && a != "" && a !in seen && Linked(agents, agents[a].parent, seen + {a}, rest)
    ensures Linked(agents, Some(a), seen, [a] + rest)
  {
    var chain := [a] + rest;
    assert forall i :: 0 < i < |chain| ==> chain[i] == rest[i - 1];
    assert rest != [] ==> chain[|chain| - 1] == rest[|rest| - 1];
  }

  /** The chain of ancestors of an agent, stopping at an unknown one and at one already seen. */
  function Chain(agents: Agents, at: Option<Id>, seen: set<Id>): (chain: seq<Id>)
    decreases agents.Keys - seen
  {
    if at.None? || at.value == "" || at.value in seen || at.value !in agents then []
    else
      assert at.value in agents.Keys - seen;
      [at.value] + Chain(agents, agents[at.value].parent, seen + {at.value})
  }

  /** Depth falls strictly along parent links, and stays within the limit. */
  ghost predicate DepthsFall(agents: Agents) {
    ROOT in agents && "" !in agents && agents[ROOT].parent == None && agents[ROOT].depth == 0 &&
    (forall a :: a in agents ==> agents[a].depth <= MAX_SPAWN_DEPTH) &&
    (forall a ::
      a in agents && agents[a].parent.Some? && agents[a].parent.value != "" && agents[a].parent.value in agents ==>
      agents[agents[a].parent.value].depth < agents[a].depth)
  }

  lemma EndKeepsDepthsFall(agents: Agents, id: Id)
    requires DepthsFall(agents)
    ensures DepthsFall(Ended(agents, id))
  {
    var after := Ended(agents, id);
    forall a | a in agents
      ensures after[a].depth == agents[a].depth
      ensures after[a].parent == agents[a].parent ||
              (id in agents && agents[a].parent == Some(id) && after[a].parent == Some(ROOT))
    {
    }
    forall a | a in after && after[a].parent.Some? && after[a].parent.value in after
      ensures after[after[a].parent.value].depth < after[a].depth
    {
      assert agents[a].parent.Some? && agents[a].parent.value in agents;
    }
  }

  lemma StepKeepsDepthsFall(s: State, step: Step)
    requires DepthsFall(s.agents) && Possible(s, step)
    ensures DepthsFall(Apply(s, step).agents)
  {
    match step
    case Terminate(id) => EndKeepsDepthsFall(s.agents, id);
    case Register(id, parent, metadata) =>
    case Acquire(id, name, ttl) => SameParentsKeepDepthsFall(s.agents, Acquired(s.agents, id, name, s.clock, ttl));
    case Release(id, name) => SameParentsKeepDepthsFall(s.agents, Released(s.agents, id, name));
    case Tick(now) =>
  }

  lemma SameParentsKeepDepthsFall(before: Agents, after: Agents)
    requires DepthsFall(before) && before.Keys == after.Keys && forall a :: a in before ==> SameParent(before, after, a)
    ensures DepthsFall(after)
  {
  }

  predicate SameParent(before: Agents, after: Agents, a: Id)
    requires a in before
  {
    a in after && after[a].parent == before[a].parent && after[a].depth == before[a].depth
  }

  lemma {:induction false} RunKeepsDepthsFall(s: State, steps: seq<Step>)
    requires DepthsFall(s.agents) && PossibleRun(s, steps)
    ensures DepthsFall(Run(s, steps).agents)
  {
    if steps != [] {
      RunKeepsDepthsFall(s, steps[..|steps| - 1]);
      StepKeepsDepthsFall(Run(s, steps[..|steps| - 1]), steps[|steps| - 1]);
    }
  }

  /** The chain without the check for repeats, cut off after `fuel` agents. */
  function Ancestors(agents: Agents, at: Option<Id>, fuel: nat): seq<Id>
    decreases fuel
  {
    if fuel == 0 || at.None? || at.value == "" || at.value !in agents then []
    else [at.value] + Ancestors(agents, agents[at.value].parent, fuel - 1)
  }

  /** Where depths fall the check for repeats never stops the chain, and the chain is as short as the depth says. */
  lemma {:induction false} ChainIsAncestors(agents: Agents, at: Option<Id>, seen: set<Id>, fuel: nat)
    requires DepthsFall(agents)
    requires at.Some? && at.value != "" && at.value in agents ==> agents[at.value].depth < fuel
    requires forall x ::
      x in seen && x in agents && at.Some? && at.value in agents ==> agents[at.value].depth < agents[x].depth
    ensures Chain(agents, at, seen) == Ancestors(agents, at, fuel)
    ensures |Chain(agents, at, seen)| <= fuel
    ensures forall x :: x in Chain(agents, at, seen) ==> x in agents && x !in seen
    decreases fuel
  {
    if at.Some? && at.value != "" && at.value in agents && at.value !in seen {
      ChainIsAncestors(agents, agents[at.value].parent, seen + {at.value}, fuel - 1);
    }
  }

  /** Over every run each lineage is complete, has no repeats, and has one agent more than its spawn depth at most. */
  lemma LineageIsShort(s: State, steps: seq<Step>, id: Id, fuel: nat)
    requires DepthsFall(s.agents) && PossibleRun(s, steps) && fuel > MAX_SPAWN_DEPTH
    ensures var agents := Run(s, steps).agents;
      Chain(agents, Some(id), {}) == Ancestors(agents, Some(id), fuel) &&
      |Chain(agents, Some(id), {})| <= if id in agents then agents[id].depth + 1 else 0
  {
    RunKeepsDepthsFall(s, steps);
    var agents := Run(s, steps).agents;
    ChainIsAncestors(agents, Some(id), {}, fuel);
    if id in agents {
      ChainIsAncestors(agents, Some(id), {}, agents[id].depth + 1);
    }
  }

  // ---------- the registry itself ----------

  class AgentRecord {
    var parent: Option<Id>
    const depth: nat
    var status: Status
    var usage: map<string, int>
    var metadata: map<string, string>
    var locks: map<string, Lock>
    var task: Option<string>

    function Value(): Record
      reads this
    {
      Record(parent, depth, status, usage, metadata, locks, task)
    }

    constructor (parent: Option<Id>, depth: nat, metadata: map<string, string>)
      ensures Value() == Record(parent, depth, Active, NewUsage(), metadata, map[], None)
    {
      this.parent, this.depth, this.metadata := parent, depth, metadata;
      status, usage, locks, task := Active, NewUsage(), map[], None;
    }

    method PurgeLocks(now: real)
      modifies this`locks
      ensures Value() == old(Value()).(locks := Unexpired(old(locks), now))
    {
      locks := Unexpired(locks, now);
    }

    method LoseParent(orphaned: Id)
      modifies this`parent
      ensures Value() == Adopted(old(Value()), orphaned)
    {
      if parent == Some(orphaned) && status != Terminated {
        parent := Some(ROOT);
      }
    }
  }

  class AgentRegistry {
    var agents: map<Id, AgentRecord>

    /** No two names share a record. */
    ghost predicate Valid()
      reads this
    {
      forall a, b :: a in agents && b in agents && agents[a] == agents[b] ==> a == b
    }

    ghost function Records(): set<AgentRecord>
      reads this
    {
      agents.Values
    }

    ghost function View(): Agents
      reads this, Records()
    {
      map a | a in agents :: agents[a].Value()
    }

    method Register(id: Id, parent: Option<Id>, metadata: map<string, string>) returns (record: Option<AgentRecord>)
      requires Valid() && id !in agents
      modifies this
      ensures Valid() && View() == Registered(old(View()), id, parent, metadata)
      ensures record.Some? <==> DepthUnder(old(View()), parent) <= MAX_SPAWN_DEPTH
      ensures record.Some? ==> fresh(record.value) && agents == old(agents)[id := record.value]
      ensures record.None? ==> agents == old(agents)
      ensures record.Some? ==>
                (var known := parent.Some? && parent.value != "" && parent.value in old(View());
                 record.value.Value() ==
                 Record(parent, if known then old(View())[parent.value].depth + 1 else 0, Active,
                        map["shell_calls" := 0, "tokens_in" := 0, "tokens_out" := 0], metadata, map[], None))
    {
      ghost var before := View();
      var depth := 0;
      if parent.Some? && parent.value != "" && parent.value in agents {
        depth := agents[parent.value].depth + 1;
      }
      assert depth == DepthUnder(before, parent);
      if depth > MAX_SPAWN_DEPTH {
        return None;
      }
      var r := new AgentRecord(parent, depth, metadata);
      agents := agents[id := r];
      assert View() == before[id := r.Value()];
      return Some(r);
    }

    method AcquireLock(id: Id, name: string, ttl: real, now: real) returns (ok: bool)
      requires Valid()
      modifies Records()
      ensures Valid() && View() == Acquired(old(View()), id, name, now, ttl)
      ensures ok == Granted(old(View()), id, name, now)
      ensures LocksAfter(old(View()), View(), ok, id, name, now, ttl)
    {
      AcquiredLocks(View(), id, name, now, ttl);
      PurgeAll(now);
      var free := NobodyElse(id, name);
      if !free || id !in agents {
        return false;
      }
      ghost var purged := View();
      var r := agents[id];
      r.locks := r.locks[name := Lock(now, now + ttl)];
      assert View() == WithLock(purged, id, name, Lock(now, now + ttl));
      return true;
    }

    method PurgeAll(now: real)
      requires Valid()
      modifies Records()
      ensures View() == Purged(old(View()), now)
    {
      ghost var before := View();
      var todo := agents.Keys;
      while todo != {}
        invariant todo <= agents.Keys
        invariant forall a :: a in todo ==> agents[a].Value() == before[a]
        invariant forall a :: a in agents && a !in todo ==> agents[a].Value() == PurgedRecord(before[a], now)
        decreases todo
      {
        var a :| a in todo;
        agents[a].PurgeLocks(now);
        todo := todo - {a};
      }
    }

    method NobodyElse(id: Id, name: string) returns (free: bool)
      ensures free == Unclaimed(View(), id, name)
    {
      var todo := agents.Keys;
      while todo != {}
        invariant todo <= agents.Keys
        invariant forall a :: a in agents && a !in todo && a != id ==> name !in agents[a].locks
        decreases todo
      {
        var a :| a in todo;
        if a != id && name in agents[a].locks {
          assert name in View()[a].locks;
          return false;
        }
        todo := todo - {a};
      }
      return true;
    }

    method ReleaseLock(id: Id, name: string) returns (ok: bool)
      requires Valid()
      modifies Records()
      ensures Valid() && View() == Released(old(View()), id, name)
      ensures ok <==> id in agents && name in old(View()[id].locks)
      ensures View() == if !ok then old(View())
                        else old(View())[id := old(View()[id]).(locks := old(View()[id].locks) - {name})]
    {
      if id !in agents || name !in agents[id].locks {
        return false;
      }
      agents[id].locks := agents[id].locks - {name};
      assert View() == Released(old(View()), id, name);
      return true;
    }

    /** Fails for the root agent; the children of the ended agent that still run become children of root. */
    method Terminate(id: Id) returns (ok: bool)
      requires Valid()
      modifies Records()
      ensures Valid() && View() == Ended(old(View()), id)
      ensures ok <==> id != ROOT
      ensures ok && id in old(View()) ==> EndedRight(old(View()), View(), id)
      ensures !ok || id !in old(View()) ==> View() == old(View())
    {
      if id == ROOT {
        return false;
      }
      if id in agents {
        EndedIsRight(View(), id);
        AdoptOrphans(id);
        ghost var adopted := View();
        agents[id].status := Terminated;
        assert View() == adopted[id := adopted[id].(status := Terminated)];
        assert View() == Ended(old(View()), id);
      }
      return true;
    }

    method AdoptOrphans(orphaned: Id)
      requires Valid()
      modifies Records()
      ensures View() == map a | a in old(View()) :: Adopted(old(View())[a], orphaned)
    {
      ghost var before := View();
      var todo := agents.Keys;
      while todo != {}
        invariant todo <= agents.Keys
        invariant forall a :: a in todo ==> agents[a].Value() == before[a]
        invariant forall a :: a in agents && a !in todo ==> agents[a].Value() == Adopted(before[a], orphaned)
        decreases todo
      {
        var a :| a in todo;
        agents[a].LoseParent(orphaned);
        todo := todo - {a};
      }
    }

    method GetLineage(id: Id) returns (chain: seq<Id>)
      ensures chain == Chain(View(), Some(id), {})
    {
      chain := [];
      var current, seen := Some(id), {};
      while current.Some? && current.value != "" && current.value !in seen
        invariant Chain(View(), Some(id), {}) == chain + Chain(View(), current, seen)
        decreases agents.Keys - seen, current.Some?
      {
        var a := current.value;
        if a !in agents {
          break;
        }
        assert a in agents.Keys - seen;
        Rejoin(chain, a, Chain(View(), agents[a].parent, seen + {a}));
        seen := seen + {a};
        chain := chain + [a];
        current := agents[a].parent;
      }
    }
  }

  lemma Rejoin(p: seq<Id>, a: Id, q: seq<Id>)
    ensures p + ([a] + q) == (p + [a]) + q
  {
  }
}
