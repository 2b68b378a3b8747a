/** Checkpoints: an agent's heap, inbox and record are saved, restored and compared. */
module Checkpoint {
  import opened Wrappers
  import opened Registry
  import Sequences
  import Bus

  const INBOX_LIMIT: int := 200

  /** A heap object: its content, and everything else that is stored with it. */
  datatype Entry = Entry(content: string, attributes: string)

  type Objects = map<string, Entry>

  datatype AgentState = AgentState(status: Status, usage: map<string, int>, metadata: map<string, string>,
                                   locks: map<string, Lock>, task: Option<string>)

  /** A checkpoint; `state` is absent when the agent was not registered. */
  datatype Snapshot = Snapshot(agent: Id, title: Option<string>, created: real, memory: Objects,
                               inbox: seq<Bus.Copy>, state: Option<AgentState>, digest: string)

  datatype World = World(agents: Agents, heaps: map<Id, Objects>, bus: Bus.State, files: map<string, Snapshot>)

  // ---------- the operations on values ----------

  function HeapOf(w: World, id: Id): Objects {
    if id in w.heaps then w.heaps[id] else map[]
  }

  function StateOf(agents: Agents, id: Id): Option<AgentState> {
    if id !in agents then None
    else var r := agents[id]; Some(AgentState(r.status, r.usage, r.metadata, r.locks, r.task))
  }

  /** The messages a save takes out of the inbox as read. */
  function Taken(w: World, id: Id, now: real): seq<Bus.Message> {
    Bus.Pick(Bus.Pruned(Bus.Queue(w.bus, id), now), w.bus.read, true, INBOX_LIMIT)
  }

  function InboxCopies(taken: seq<Bus.Message>): (r: seq<Bus.Copy>)
    ensures Bus.Returns(r, taken)
  {
    seq(|taken|, i requires 0 <= i < |taken| => Bus.Copy(taken[i].body, true))
  }

  ghost function SnapshotOf(w: World, id: Id, title: Option<string>, now: real, hash: Objects -> string): Snapshot {
    Snapshot(id, title, now, HeapOf(w, id), InboxCopies(Taken(w, id, now)), StateOf(w.agents, id), hash(HeapOf(w, id)))
  }

  ghost function Saved(w: World, id: Id, checkpoint: string, title: Option<string>, now: real, hash: Objects -> string)
    : World
  {
    World(w.agents, w.heaps[id := HeapOf(w, id)], Bus.Received(w.bus, id, true, INBOX_LIMIT, now),
          w.files[checkpoint := SnapshotOf(w, id, title, now, hash)])
  }

  /** Usage, metadata and locks are written back as they were, with no look at the other agents. */
  function WithState(agents: Agents, id: Id, state: Option<AgentState>): Agents {
    if id in agents && state.Some?
    then agents[id := agents[id].(usage := state.value.usage, metadata := state.value.metadata,
                                  locks := state.value.locks)]
    else agents
  }

  predicate Found(w: World, id: Id, checkpoint: string) {
    checkpoint in w.files && w.files[checkpoint].agent == id
  }

  function Restored(w: World, id: Id, checkpoint: string): World {
    if !Found(w, id, checkpoint) then w
    else w.(heaps := w.heaps[id := w.files[checkpoint].memory],
            agents := WithState(w.agents, id, w.files[checkpoint].state))
  }

  // ---------- comparing checkpoints ----------

  datatype Field = StatusField | UsageField | MetadataField | LocksField | TaskField

  datatype Diff = Diff(newKeys: set<string>, removedKeys: set<string>, changedKeys: set<string>, newMessages: nat,
                       changes: set<Field>, digestChanged: bool)

  /** A field absent on both sides, or absent on one and empty on the other, has not changed. */
  predicate Differs(a: Option<AgentState>, b: Option<AgentState>, f: Field) {
    match (a, b)
    case (None, None) => false
    case (None, Some(y)) => f != TaskField || y.task.Some?
    case (Some(x), None) => f != TaskField || x.task.Some?
    case (Some(x), Some(y)) => (
      match f
      case StatusField => x.status != y.status
      case UsageField => x.usage != y.usage
      case MetadataField => x.metadata != y.metadata
      case LocksField => x.locks != y.locks
      case TaskField => x.task != y.task)
  }

  function DiffOf(a: Snapshot, b: Snapshot): Diff {
    Diff(b.memory.Keys - a.memory.Keys, a.memory.Keys - b.memory.Keys,
         set k | k in a.memory.Keys * b.memory.Keys && a.memory[k].content != b.memory[k].content,
         |set m | m in b.inbox && m !in a.inbox|,
         (set f: Field | Differs(a.state, b.state, f) :: f),
         a.digest != b.digest)
  }

  /** Each key by its presence and its content on the two sides. */
  ghost predicate KeysTold(a: Objects, b: Objects, diff: Diff) {
    forall k ::
      (k in diff.newKeys <==> k in b && k !in a) && (k in diff.removedKeys <==> k in a && k !in b) &&
      (k in diff.changedKeys <==> k in a && k in b && a[k].content != b[k].content)
  }

  /** Each field of the state by its values on the two sides. */
  ghost predicate FieldsTold(a: AgentState, b: AgentState, diff: Diff) {
    (StatusField in diff.changes <==> a.status != b.status) && (UsageField in diff.changes <==> a.usage != b.usage) &&
    (MetadataField in diff.changes <==> a.metadata != b.metadata) &&
    (LocksField in diff.changes <==> a.locks != b.locks) && (TaskField in diff.changes <==> a.task != b.task)
  }

  /** A state that is absent on both sides has not changed; on one side, all but an absent task has. */
  ghost predicate StatesTold(a: Option<AgentState>, b: Option<AgentState>, diff: Diff) {
    if a.Some? && b.Some? then FieldsTold(a.value, b.value, diff)
    else if a.None? && b.None? then diff.changes == {}
    else
      {StatusField, UsageField, MetadataField, LocksField} <= diff.changes &&
      (TaskField in diff.changes <==> (if a.Some? then a.value else b.value).task.Some?)
  }

  ghost predicate InboxTold(a: seq<Bus.Copy>, b: seq<Bus.Copy>, diff: Diff) {
    exists unseen: set<Bus.Copy> ::
      |unseen| == diff.newMessages && forall m :: m in unseen <==> m in b && m !in a
  }

  /** A comparison tells exactly what differs. */
  lemma DiffTells(a: Snapshot, b: Snapshot)
    ensures var diff := DiffOf(a, b);
      KeysTold(a.memory, b.memory, diff) && StatesTold(a.state, b.state, diff) && InboxTold(a.inbox, b.inbox, diff) &&
      (diff.digestChanged <==> a.digest != b.digest)
  {
    var diff := DiffOf(a, b);
    forall f: Field ensures f in diff.changes <==> Differs(a.state, b.state, f) {
    }
    StatesAreTold(a, b);
    var unseen := set m | m in b.inbox && m !in a.inbox;
    assert |unseen| == diff.newMessages && forall m :: m in unseen <==> m in b.inbox && m !in a.inbox;
  }

  lemma StatesAreTold(a: Snapshot, b: Snapshot)
    ensures StatesTold(a.state, b.state, DiffOf(a, b))
  {
    var changes := DiffOf(a, b).changes;
    forall f: Field ensures f in changes <==> Differs(a.state, b.state, f) {
    }
    if a.state.None? && b.state.None? {
      assert changes == {};
    }
  }

  // ---------- what a save holds ----------

  /**
   * Of the first `n` messages of the queue the save takes those that are unread and live; `n` is the whole queue
   * unless two hundred are taken.
   */
  ghost predicate TakesFront(w: World, id: Id, now: real, n: nat) {
    var q, taken := Bus.Queue(w.bus, id), Taken(w, id, now);
    n <= |q| && |taken| <= 200 && (|taken| < 200 ==> n == |q|) &&
    Sequences.Members(taken) == (set m | m in q[..n] && m !in w.bus.read && Bus.Live(m, now)) &&
    Sequences.Distinct(taken)
  }

  /** The front of a pruned queue is what is live of a front of the queue. */
  lemma {:induction false} PrunedFront(q: seq<Bus.Message>, now: real, k: nat) returns (n: nat)
    requires k <= |Bus.Pruned(q, now)|
    ensures n <= |q| && Bus.Pruned(q[..n], now) == Bus.Pruned(q, now)[..k]
    ensures k == |Bus.Pruned(q, now)| ==> n == |q|
  {
    if q == [] {
      n := 0;
    } else if k == 0 && Bus.Pruned(q, now) != [] {
      n := 0;
    } else {
      var head := if Bus.Live(q[0], now) then [q[0]] else [];
      var j := if k == 0 then 0 else k - |head|;
      var i := PrunedFront(q[1..], now, j);
      n := i + 1;
      assert q[..n][0] == q[0] && q[..n][1..] == q[1..][..i];
    }
  }

  lemma TakenIsFront(w: World, id: Id, now: real) returns (n: nat)
    ensures TakesFront(w, id, now, n)
  {
    var q := Bus.Queue(w.bus, id);
    var pruned := Bus.Pruned(q, now);
    var k := Bus.PickIsFront(pruned, w.bus.read, 200);
    n := PrunedFront(q, now, k);
    forall m: Bus.Message ensures m in pruned[..k] <==> m in q[..n] && Bus.Live(m, now) {
      PrunedLive(q[..n], now, m);
    }
    var found := set m | m in q[..n] && m !in w.bus.read && Bus.Live(m, now);
    forall m: Bus.Message ensures m in Taken(w, id, now) <==> m in found {
    }
    assert Sequences.Members(Taken(w, id, now)) == found;
  }

  /** A save holds the heap, the record and the unread messages of the agent as they are. */
  ghost predicate Captures(w: World, id: Id, title: Option<string>, now: real, hash: Objects -> string,
                           snap: Snapshot)
  {
    snap.agent == id && snap.title == title && snap.created == now && snap.digest == hash(snap.memory) &&
    snap.memory == (if id in w.heaps then w.heaps[id] else map[]) && (snap.state.Some? <==> id in w.agents) &&
    (id in w.agents ==>
      var r, state := w.agents[id], snap.state.value;
      state.status == r.status && state.usage == r.usage && state.metadata == r.metadata && state.locks == r.locks &&
      state.task == r.task) &&
    |snap.inbox| == |Taken(w, id, now)| &&
    forall i :: 0 <= i < |snap.inbox| ==>
      snap.inbox[i].body == Taken(w, id, now)[i].body && snap.inbox[i].read
  }

  lemma SnapshotTells(w: World, id: Id, title: Option<string>, now: real, hash: Objects -> string)
    ensures Captures(w, id, title, now, hash, SnapshotOf(w, id, title, now, hash))
  {
  }

  // ---------- what a restore recovers ----------

  /**
   * Save, then any changes to heaps and records that leave the checkpoint file, then restore: the heap,
   * usage, metadata and locks are those of the moment of saving.
   */
  lemma RestoreRecovers(w: World, later: World, id: Id, checkpoint: string, title: Option<string>, now: real,
                        hash: Objects -> string)
    requires id in w.agents && id in later.agents && checkpoint in later.files
    requires later.files[checkpoint] == Saved(w, id, checkpoint, title, now, hash).files[checkpoint]
    ensures var r := Restored(later, id, checkpoint);
      HeapOf(r, id) == HeapOf(w, id) && r.agents[id].usage == w.agents[id].usage &&
      r.agents[id].metadata == w.agents[id].metadata && r.agents[id].locks == w.agents[id].locks
    ensures var r := Restored(later, id, checkpoint);
      r.agents[id].status == later.agents[id].status && r.agents[id].task == later.agents[id].task &&
      (forall a :: a in later.agents && a != id ==> a in r.agents && r.agents[a] == later.agents[a]) &&
      (forall a :: a != id ==> HeapOf(r, a) == HeapOf(later, a)) && r.bus == later.bus
  {
  }

  predicate SameMemory(diff: Diff) {
    diff.newKeys == {} && diff.removedKeys == {} && diff.changedKeys == {} && !diff.digestChanged
  }

  predicate OnlyStatusAndTask(diff: Diff, before: Record, later: Record) {
    diff.changes <= {StatusField, TaskField} &&
    (StatusField in diff.changes <==> before.status != later.status) &&
    (TaskField in diff.changes <==> before.task != later.task)
  }

  lemma StatusAndTaskDiffer(a: Snapshot, b: Snapshot)
    requires a.state.Some? && b.state.Some?
    requires a.state.value.usage == b.state.value.usage && a.state.value.metadata == b.state.value.metadata
    requires a.state.value.locks == b.state.value.locks
    ensures var changes := DiffOf(a, b).changes;
      changes <= {StatusField, TaskField} &&
      (StatusField in changes <==> a.state.value.status != b.state.value.status) &&
      (TaskField in changes <==> a.state.value.task != b.state.value.task)
  {
    forall f: Field ensures f in DiffOf(a, b).changes <==> Differs(a.state, b.state, f) {
    }
    assert Differs(a.state, b.state, StatusField) <==> a.state.value.status != b.state.value.status;
    assert Differs(a.state, b.state, TaskField) <==> a.state.value.task != b.state.value.task;
  }

  /**
   * A save after the restore compares with the first one as equal in its memory and its digest, and differs in
   * the status and the task alone, each exactly when it was changed in between.
   */
  lemma FreshSaveComparesEqual(w: World, later: World, id: Id, c: string, d: string, title: Option<string>,
                               title2: Option<string>, now: real, next: real, hash: Objects -> string)
    requires id in w.agents && id in later.agents && c in later.files && c != d
    requires later.files[c] == Saved(w, id, c, title, now, hash).files[c]
    ensures var end := Saved(Restored(later, id, c), id, d, title2, next, hash);
      SameMemory(DiffOf(end.files[c], end.files[d])) &&
      OnlyStatusAndTask(DiffOf(end.files[c], end.files[d]), w.agents[id], later.agents[id])
  {
    var r := Restored(later, id, c);
    var a, b := later.files[c], SnapshotOf(r, id, title2, next, hash);
    RestoreRecovers(w, later, id, c, title, now, hash);
    assert Saved(r, id, d, title2, next, hash).files[c] == a && Saved(r, id, d, title2, next, hash).files[d] == b;
    assert a.memory == b.memory && a.digest == b.digest;
    assert SameMemory(DiffOf(a, b));
    assert a.state == StateOf(w.agents, id) && b.state == StateOf(r.agents, id);
    StatusAndTaskDiffer(a, b);
  }

  /** When the agent was not registered at the save, a restore recovers the heap and leaves the records alone. */
  lemma RestoreWithoutAgent(w: World, later: World, id: Id, c: string, title: Option<string>, now: real,
                            hash: Objects -> string)
    requires id !in w.agents && c in later.files
    requires later.files[c] == Saved(w, id, c, title, now, hash).files[c]
    ensures HeapOf(Restored(later, id, c), id) == HeapOf(w, id) && Restored(later, id, c).agents == later.agents
  {
  }

  // ---------- the inbox does not come back ----------

  /** Nothing is taken exactly when all there is has been read. */
  lemma {:induction false} PickEmptyIff(q: seq<Bus.Message>, read: set<Bus.Message>)
    ensures Bus.Pick(q, read, true, INBOX_LIMIT) == [] <==> forall m :: m in q ==> m in read
  {
    if q != [] {
      PickEmptyIff(q[1..], read);
      assert q == [q[0]] + q[1..];
    }
  }

  lemma NothingNewLater(w: World, id: Id, now: real, next: real)
    requires now <= next && Taken(w, id, now) == []
    ensures forall m :: m in Bus.Queue(w.bus, id) && Bus.Live(m, next) ==> m in w.bus.read
  {
    Bus.PrunedMembers(Bus.Queue(w.bus, id), now);
    PickEmptyIff(Bus.Pruned(Bus.Queue(w.bus, id), now), w.bus.read);
  }

  lemma PrunedLive(q: seq<Bus.Message>, now: real, m: Bus.Message)
    ensures m in Bus.Pruned(q, now) <==> m in q && Bus.Live(m, now)
  {
    Bus.PrunedMembers(q, now);
  }

  lemma PrunedTwice(q: seq<Bus.Message>, now: real, next: real)
    ensures forall m :: m in Bus.Pruned(Bus.Pruned(q, now), next) ==> m in q && Bus.Live(m, next)
  {
    forall m | m in Bus.Pruned(Bus.Pruned(q, now), next) ensures m in q && Bus.Live(m, next) {
      PrunedLive(Bus.Pruned(q, now), next, m);
      PrunedLive(q, now, m);
    }
  }

  /** What has been read is not taken as unread. */
  lemma ReadIsNotTaken(w: World, id: Id, now: real)
    ensures forall m :: m in Taken(w, id, now) ==> m !in w.bus.read
  {
    Bus.PickMembers(Bus.Pruned(Bus.Queue(w.bus, id), now), w.bus.read, true, INBOX_LIMIT);
  }

  /**
   * A save marks what it stores as read, so none of it is unread after the restore: it is lost to the agent. The
   * agent finds what the save found exactly when that was nothing.
   */
  lemma InboxIsNotRestored(w: World, id: Id, c: string, title: Option<string>, now: real, next: real,
                           hash: Objects -> string)
    requires now <= next
    ensures var r := Restored(Saved(w, id, c, title, now, hash), id, c);
      (forall m :: m in Taken(w, id, now) ==> m !in Taken(r, id, next)) &&
      (Taken(r, id, next) == Taken(w, id, now) <==> Taken(w, id, now) == [])
  {
    var r := Restored(Saved(w, id, c, title, now, hash), id, c);
    var q, taken := Bus.Pruned(Bus.Queue(w.bus, id), now), Taken(w, id, now);
    assert Bus.Queue(r.bus, id) == q && r.bus.read == w.bus.read + Sequences.Members(taken);
    ReadIsNotTaken(r, id, next);
    forall m | m in taken ensures m !in Taken(r, id, next) {
      assert m in Sequences.Members(taken) && m in r.bus.read;
    }
    if taken == [] {
      NothingNewLater(w, id, now, next);
      PrunedTwice(Bus.Queue(w.bus, id), now, next);
      PickEmptyIff(Bus.Pruned(q, next), r.bus.read);
      assert Taken(r, id, next) == [];
    } else {
      assert taken[0] in taken && taken[0] !in Taken(r, id, next);
    }
  }

  // ---------- restoring locks ----------

  /** Nobody else holds a name that the checkpoint is about to give back. */
  ghost predicate LocksFree(agents: Agents, id: Id, locks: map<string, Lock>) {
    forall a, n :: a in agents && a != id && n in locks ==> n !in agents[a].locks
  }

  /** What a caller can check before a restore. */
  ghost predicate SafeToRestore(w: World, id: Id, c: string) {
    !Found(w, id, c) || id !in w.agents || w.files[c].state.None? ||
    LocksFree(w.agents, id, w.files[c].state.value.locks)
  }

  /** The lock invariant survives a restore exactly when no other agent holds a saved name. */
  lemma RestoreKeepsExclusiveIff(w: World, id: Id, c: string)
    requires Exclusive(w.agents)
    ensures Exclusive(Restored(w, id, c).agents) <==> SafeToRestore(w, id, c)
  {
    var after := Restored(w, id, c).agents;
    if Found(w, id, c) && id in w.agents && w.files[c].state.Some? {
      var locks := w.files[c].state.value.locks;
      assert after[id].locks == locks;
      if Exclusive(after) {
        forall a, n | a in w.agents && a != id && n in locks ensures n !in w.agents[a].locks {
          assert a in after && after[a].locks == w.agents[a].locks;
        }
      }
      if LocksFree(w.agents, id, locks) {
        forall a, b, n | a in after && b in after && n in after[a].locks && n in after[b].locks ensures a == b {
          if a != id && b != id {
            assert n in w.agents[a].locks && n in w.agents[b].locks;
          }
        }
      }
    }
  }

  /** Whatever can happen to the registry, the records, the heaps and the bus, and saves and restores of any agent. */
  datatype Step =
    | Do(step: Registry.Step)
    | Edit(id: Id, status: Status, usage: map<string, int>, metadata: map<string, string>, task: Option<string>)
    | Write(id: Id, key: string, entry: Option<Entry>)
    | Post(to: Id, message: Bus.Message)
    | Read(id: Id, unreadOnly: bool, limit: int)
    | Save(id: Id, checkpoint: string, title: Option<string>)
    | Restore(id: Id, checkpoint: string)

  /** Usage, metadata, status and task are set from outside the lock table. */
  function Edited(agents: Agents, step: Step): Agents
    requires step.Edit?
  {
    if step.id !in agents then agents
    else agents[step.id := agents[step.id].(status := step.status, usage := step.usage, metadata := step.metadata,
                                            task := step.task)]
  }

  /** A heap object is stored or freed. */
  function Written(heap: Objects, key: string, entry: Option<Entry>): Objects {
    if entry.Some? then heap[key := entry.value] else heap - {key}
  }

  ghost function Apply(w: World, clock: real, step: Step, hash: Objects -> string): (World, real) {
    match step
    case Do(s) =>
      var after := Registry.Apply(State(w.agents, clock), s);
      (w.(agents := after.agents), after.clock)
    case Edit(id, status, usage, metadata, task) => (w.(agents := Edited(w.agents, step)), clock)
    case Write(id, key, entry) => (w.(heaps := w.heaps[id := Written(HeapOf(w, id), key, entry)]), clock)
    case Post(to, m) => (w.(bus := Bus.Sent(w.bus, to, m)), clock)
    case Read(id, unreadOnly, limit) => (w.(bus := Bus.Received(w.bus, id, unreadOnly, limit, clock)), clock)
    case Save(id, c, title) => (Saved(w, id, c, title, clock, hash), clock)
    case Restore(id, c) => (Restored(w, id, c), clock)
  }

  ghost function Run(w: World, clock: real, steps: seq<Step>, hash: Objects -> string): (World, real) {
    if steps == [] then (w, clock)
    else
      var before := Run(w, clock, steps[..|steps| - 1], hash);
      Apply(before.0, before.1, steps[|steps| - 1], hash)
  }

  ghost predicate EveryRestoreSafe(w: World, clock: real, steps: seq<Step>, hash: Objects -> string) {
    steps == [] ||
    (EveryRestoreSafe(w, clock, steps[..|steps| - 1], hash) &&
     (var last := steps[|steps| - 1];
      last.Restore? ==> SafeToRestore(Run(w, clock, steps[..|steps| - 1], hash).0, last.id, last.checkpoint)))
  }

  lemma {:induction false} SafeRunsKeepExclusive(w: World, clock: real, steps: seq<Step>, hash: Objects -> string)
    requires Exclusive(w.agents) && EveryRestoreSafe(w, clock, steps, hash)
    ensures Exclusive(Run(w, clock, steps, hash).0.agents)
  {
    if steps != [] {
      SafeRunsKeepExclusive(w, clock, steps[..|steps| - 1], hash);
      var before, last := Run(w, clock, steps[..|steps| - 1], hash), steps[|steps| - 1];
      match last
      case Do(s) => StepKeepsExclusive(State(before.0.agents, before.1), s);
      case Edit(id, _, _, _, _) => FewerLocksExclusive(before.0.agents, Edited(before.0.agents, last));
      case Write(_, _, _) =>
      case Post(_, _) =>
      case Read(_, _, _) =>
      case Save(id, c, title) =>
      case Restore(id, c) => RestoreKeepsExclusiveIff(before.0, id, c);
    }
  }

  // ---------- recovery over runs ----------

  /** The run makes no other checkpoint of that name. */
  predicate NameKept(steps: seq<Step>, c: string) {
    forall i :: 0 <= i < |steps| ==> !(steps[i].Save? && steps[i].checkpoint == c)
  }

  lemma StepKeepsAgents(w: World, clock: real, step: Step, id: Id, hash: Objects -> string)
    requires id in w.agents
    ensures id in Apply(w, clock, step, hash).0.agents
  {
  }

  /** A run that makes no other checkpoint of that name keeps the file, and no run loses an agent. */
  lemma {:induction false} RunKeepsFile(w: World, clock: real, steps: seq<Step>, id: Id, c: string,
                                        hash: Objects -> string)
    requires c in w.files && id in w.agents && NameKept(steps, c)
    ensures var end := Run(w, clock, steps, hash).0;
      c in end.files && end.files[c] == w.files[c] && id in end.agents
  {
    if steps != [] {
      RunKeepsFile(w, clock, steps[..|steps| - 1], id, c, hash);
      var before := Run(w, clock, steps[..|steps| - 1], hash);
      StepKeepsAgents(before.0, before.1, steps[|steps| - 1], id, hash);
    }
  }

  lemma {:induction false} RunConcat(w: World, clock: real, a: seq<Step>, b: seq<Step>, hash: Objects -> string)
    ensures var mid := Run(w, clock, a, hash);
      Run(w, clock, a + b, hash) == Run(mid.0, mid.1, b, hash)
  {
    if b == [] {
      assert a + b == a;
    } else {
      var front, last := b[..|b| - 1], b[|b| - 1];
      RunConcat(w, clock, a, front, hash);
      assert (a + b)[..|a + b| - 1] == a + front && (a + b)[|a + b| - 1] == last;
    }
  }

  lemma RunOfOne(w: World, clock: real, step: Step, hash: Objects -> string)
    ensures Run(w, clock, [step], hash) == Apply(w, clock, step, hash)
  {
    assert [step][..0] == [];
    assert Run(w, clock, [], hash) == (w, clock);
  }

  /** A save, then a run, then the restore of that save. */
  function SaveAndRestore(id: Id, c: string, title: Option<string>, between: seq<Step>): seq<Step> {
    ([Save(id, c, title)] + between) + [Restore(id, c)]
  }

  ghost function Meanwhile(w: World, clock: real, id: Id, c: string, title: Option<string>, between: seq<Step>,
                           hash: Objects -> string): (World, real)
  {
    Run(w, clock, [Save(id, c, title)] + between, hash)
  }

  lemma RestoreEndsRun(w: World, clock: real, id: Id, c: string, title: Option<string>, between: seq<Step>,
                       hash: Objects -> string)
    requires id in w.agents && NameKept(between, c)
    ensures var later := Meanwhile(w, clock, id, c, title, between, hash);
      Run(w, clock, SaveAndRestore(id, c, title, between), hash) == (Restored(later.0, id, c), later.1) &&
      id in later.0.agents && c in later.0.files &&
      later.0.files[c] == Saved(w, id, c, title, clock, hash).files[c]
  {
    var save, later := [Save(id, c, title)], Meanwhile(w, clock, id, c, title, between, hash);
    var saved := Saved(w, id, c, title, clock, hash);
    RunOfOne(w, clock, Save(id, c, title), hash);
    RunConcat(w, clock, save, between, hash);
    RunKeepsFile(saved, clock, between, id, c, hash);
    RunConcat(w, clock, save + between, [Restore(id, c)], hash);
    RunOfOne(later.0, later.1, Restore(id, c), hash);
  }

  /**
   * From every world, over every run in between that makes no other checkpoint of that name: a restore recovers
   * the heap, usage, metadata and locks of the moment of saving, and disturbs nothing else.
   */
  lemma RunsRecover(w: World, clock: real, id: Id, c: string, title: Option<string>, between: seq<Step>,
                    hash: Objects -> string)
    requires id in w.agents && NameKept(between, c)
    ensures var end := Run(w, clock, SaveAndRestore(id, c, title, between), hash).0;
      HeapOf(end, id) == HeapOf(w, id) && id in end.agents && end.agents[id].usage == w.agents[id].usage &&
      end.agents[id].metadata == w.agents[id].metadata && end.agents[id].locks == w.agents[id].locks
    ensures var end := Run(w, clock, SaveAndRestore(id, c, title, between), hash).0;
      var later := Meanwhile(w, clock, id, c, title, between, hash).0;
      id in later.agents && id in end.agents && end.bus == later.bus && end.files == later.files &&
      end.agents[id].status == later.agents[id].status && end.agents[id].task == later.agents[id].task &&
      (forall a :: a in later.agents && a != id ==> a in end.agents && end.agents[a] == later.agents[a]) &&
      (forall a :: a != id ==> HeapOf(end, a) == HeapOf(later, a))
  {
    RestoreEndsRun(w, clock, id, c, title, between, hash);
    RestoreRecovers(w, Meanwhile(w, clock, id, c, title, between, hash).0, id, c, title, clock, hash);
  }

  /** No run makes a message unread again. */
  lemma {:induction false} ReadStaysRead(w: World, clock: real, steps: seq<Step>, hash: Objects -> string)
    ensures w.bus.read <= Run(w, clock, steps, hash).0.bus.read
  {
    if steps != [] {
      ReadStaysRead(w, clock, steps[..|steps| - 1], hash);
    }
  }

  /**
   * Over every run between save and restore, other saves of the name included: what the save took is never taken
   * again, so the agent finds the same messages at the end only if the save found none.
   */
  lemma InboxNeverComesBack(w: World, clock: real, id: Id, c: string, title: Option<string>, between: seq<Step>,
                            next: real, hash: Objects -> string)
    ensures var end := Run(w, clock, SaveAndRestore(id, c, title, between), hash).0;
      (forall m :: m in Taken(w, id, clock) ==> m !in Taken(end, id, next)) &&
      (Taken(end, id, next) == Taken(w, id, clock) ==> Taken(w, id, clock) == [])
  {
    var save, after := [Save(id, c, title)], between + [Restore(id, c)];
    var saved, taken := Saved(w, id, c, title, clock, hash), Taken(w, id, clock);
    assert save + after == SaveAndRestore(id, c, title, between);
    RunOfOne(w, clock, Save(id, c, title), hash);
    RunConcat(w, clock, save, after, hash);
    ReadStaysRead(saved, clock, after, hash);
    var end := Run(saved, clock, after, hash).0;
    ReadIsNotTaken(end, id, next);
    forall m | m in taken ensures m !in Taken(end, id, next) {
      assert m in Sequences.Members(taken) && m in saved.bus.read;
    }
    if taken != [] {
      assert taken[0] in taken;
    }
  }

  /** A fresh save at the end of such a run compares as equal but for status and task. */
  lemma RunsCompareEqual(w: World, clock: real, id: Id, c: string, d: string, title: Option<string>,
                         title2: Option<string>, between: seq<Step>, hash: Objects -> string)
    requires id in w.agents && NameKept(between, c) && c != d
    ensures var end := Run(w, clock, SaveAndRestore(id, c, title, between) + [Save(id, d, title2)], hash).0;
      var later := Meanwhile(w, clock, id, c, title, between, hash).0;
      id in later.agents && c in end.files && d in end.files &&
      SameMemory(DiffOf(end.files[c], end.files[d])) &&
      OnlyStatusAndTask(DiffOf(end.files[c], end.files[d]), w.agents[id], later.agents[id])
  {
    var later := Meanwhile(w, clock, id, c, title, between, hash);
    RestoreEndsRun(w, clock, id, c, title, between, hash);
    RunConcat(w, clock, SaveAndRestore(id, c, title, between), [Save(id, d, title2)], hash);
    RunOfOne(Restored(later.0, id, c), later.1, Save(id, d, title2), hash);
    FreshSaveComparesEqual(w, later.0, id, c, d, title, title2, clock, later.1, hash);
  }

  /**
   * Over every run between two saves, other than a save under the first name: the comparison tells exactly by which
   * keys the heap of the agent at the end differs from the one at the beginning, and which fields of its record do.
   */
  lemma RunsCompareExactly(w: World, clock: real, id: Id, c: string, d: string, title: Option<string>,
                           title2: Option<string>, between: seq<Step>, hash: Objects -> string)
    requires id in w.agents && NameKept(between, c) && c != d
    ensures var later := Meanwhile(w, clock, id, c, title, between, hash).0;
      var end := Run(w, clock, ([Save(id, c, title)] + between) + [Save(id, d, title2)], hash).0;
      id in later.agents && c in end.files && d in end.files &&
      var diff := DiffOf(end.files[c], end.files[d]);
      KeysTold(HeapOf(w, id), HeapOf(later, id), diff) &&
      (diff.digestChanged <==> hash(HeapOf(w, id)) != hash(HeapOf(later, id))) &&
      FieldsTold(StateOf(w.agents, id).value, StateOf(later.agents, id).value, diff)
  {
    var later := Meanwhile(w, clock, id, c, title, between, hash);
    RestoreEndsRun(w, clock, id, c, title, between, hash);
    RunConcat(w, clock, [Save(id, c, title)] + between, [Save(id, d, title2)], hash);
    RunOfOne(later.0, later.1, Save(id, d, title2), hash);
    DiffTells(SnapshotOf(w, id, title, clock, hash), SnapshotOf(later.0, id, title2, later.1, hash));
  }

  /** Storing or freeing one object between two saves is told as that key and nothing else. */
  lemma OneWriteComparesExactly(w: World, clock: real, id: Id, c: string, d: string, key: string,
                                entry: Option<Entry>, hash: Objects -> string)
    requires id in w.agents && c != d
    ensures var run := [Save(id, c, None)] + [Write(id, key, entry)] + [Save(id, d, None)];
      var end, heap := Run(w, clock, run, hash).0, HeapOf(w, id);
      c in end.files && d in end.files &&
      OneKeyTold(heap, key, entry, DiffOf(end.files[c], end.files[d]))
  {
    RunsCompareExactly(w, clock, id, c, d, None, None, [Write(id, key, entry)], hash);
    OneWrite(w, clock, id, c, key, entry, hash);
    var end := Run(w, clock, ([Save(id, c, None)] + [Write(id, key, entry)]) + [Save(id, d, None)], hash).0;
    OneKeyIsTold(HeapOf(w, id), key, entry, DiffOf(end.files[c], end.files[d]));
    NoFieldTold(StateOf(w.agents, id).value, DiffOf(end.files[c], end.files[d]));
  }

  /** The key is new, removed, changed or not told at all; nothing else is told. */
  ghost predicate OneKeyTold(heap: Objects, key: string, entry: Option<Entry>, diff: Diff) {
    diff.newKeys == (if entry.Some? && key !in heap then {key} else {}) &&
    diff.removedKeys == (if entry.None? && key in heap then {key} else {}) &&
    diff.changedKeys ==
      (if entry.Some? && key in heap && heap[key].content != entry.value.content then {key} else {}) &&
    diff.changes == {}
  }

  lemma OneKeyIsTold(heap: Objects, key: string, entry: Option<Entry>, diff: Diff)
    requires KeysTold(heap, if entry.Some? then heap[key := entry.value] else heap - {key}, diff)
    ensures OneKeyTold(heap, key, entry, diff.(changes := {}))
  {
  }

  lemma OneWrite(w: World, clock: real, id: Id, c: string, key: string, entry: Option<Entry>, hash: Objects -> string)
    ensures var later := Meanwhile(w, clock, id, c, None, [Write(id, key, entry)], hash).0;
      later.agents == w.agents &&
      HeapOf(later, id) == if entry.Some? then HeapOf(w, id)[key := entry.value] else HeapOf(w, id) - {key}
  {
    var saved := Saved(w, id, c, None, clock, hash);
    RunOfOne(w, clock, Save(id, c, None), hash);
    RunConcat(w, clock, [Save(id, c, None)], [Write(id, key, entry)], hash);
    RunOfOne(saved, clock, Write(id, key, entry), hash);
  }

  lemma NoFieldTold(a: AgentState, diff: Diff)
    requires FieldsTold(a, a, diff)
    ensures diff.changes == {}
  {
    forall f: Field ensures f !in diff.changes {
      match f
      case StatusField =>
      case UsageField =>
      case MetadataField =>
      case LocksField =>
      case TaskField =>
    }
  }

  /** One agent takes a lock, is saved and lets the lock go; another takes it; the first is restored. */
  function SharingRun(a: Id, b: Id, name: string, ttl: real, c: string): seq<Step> {
    [Do(Acquire(a, name, ttl))] + [Save(a, c, None)] + [Do(Release(a, name))] + [Do(Acquire(b, name, ttl))] +
    [Restore(a, c)]
  }

  /** The world in which that run ends. */
  ghost function Shared(w: World, clock: real, a: Id, b: Id, name: string, ttl: real, c: string,
                        hash: Objects -> string): World
  {
    var w1 := w.(agents := Acquired(w.agents, a, name, clock, ttl));
    var w2 := Saved(w1, a, c, None, clock, hash);
    var w3 := w2.(agents := Released(w2.agents, a, name));
    var w4 := w3.(agents := Acquired(w3.agents, b, name, clock, ttl));
    Restored(w4, a, c)
  }

  lemma SharingRunEnds(w: World, clock: real, a: Id, b: Id, name: string, ttl: real, c: string,
                       hash: Objects -> string)
    ensures Run(w, clock, SharingRun(a, b, name, ttl, c), hash).0 == Shared(w, clock, a, b, name, ttl, c, hash)
  {
    RunOfFive(w, clock, Do(Acquire(a, name, ttl)), Save(a, c, None), Do(Release(a, name)), Do(Acquire(b, name, ttl)),
              Restore(a, c), hash);
    var w1 := w.(agents := Acquired(w.agents, a, name, clock, ttl));
    assert After((w, clock), Do(Acquire(a, name, ttl)), hash) == (w1, clock);
    var w2 := Saved(w1, a, c, None, clock, hash);
    assert After((w1, clock), Save(a, c, None), hash) == (w2, clock);
    var w3 := w2.(agents := Released(w2.agents, a, name));
    assert After((w2, clock), Do(Release(a, name)), hash) == (w3, clock);
    var w4 := w3.(agents := Acquired(w3.agents, b, name, clock, ttl));
    assert After((w3, clock), Do(Acquire(b, name, ttl)), hash) == (w4, clock);
    assert After((w4, clock), Restore(a, c), hash).0 == Restored(w4, a, c);
  }

  /** From every world in which nobody holds the name, that run ends with two holders. */
  lemma RestoreCanShareALock(w: World, clock: real, a: Id, b: Id, name: string, ttl: real, c: string,
                             hash: Objects -> string)
    requires a in w.agents && b in w.agents && a != b && ttl >= 0.0
    requires Others(w.agents, a, name) && name !in w.agents[a].locks
    ensures var agents := Run(w, clock, SharingRun(a, b, name, ttl, c), hash).0.agents;
      HoldsName(agents, a, name) && HoldsName(agents, b, name)
  {
    SharingRunEnds(w, clock, a, b, name, ttl, c, hash);
    var first := Acquired(w.agents, a, name, clock, ttl);
    FirstHolds(w.agents, a, name, clock, ttl);
    ReleasedToOther(first, a, b, name, clock, ttl);
    var second := Acquired(Released(first, a, name), b, name, clock, ttl);
    SharedAgents(w, clock, a, b, name, ttl, c, hash);
  }

  lemma SharedAgents(w: World, clock: real, a: Id, b: Id, name: string, ttl: real, c: string, hash: Objects -> string)
    ensures var first := Acquired(w.agents, a, name, clock, ttl);
      var second := Acquired(Released(first, a, name), b, name, clock, ttl);
      Shared(w, clock, a, b, name, ttl, c, hash).agents == WithState(second, a, StateOf(first, a))
  {
  }

  ghost predicate HoldsName(agents: Agents, a: Id, name: string) {
    a in agents && name in agents[a].locks
  }

  lemma FirstHolds(agents: Agents, a: Id, name: string, now: real, ttl: real)
    requires a in agents && Others(agents, a, name)
    ensures var after := Acquired(agents, a, name, now, ttl);
      after.Keys == agents.Keys && HoldsName(after, a, name) && Others(after, a, name)
  {
    assert Granted(agents, a, name, now);
  }

  lemma ReleasedToOther(agents: Agents, a: Id, b: Id, name: string, now: real, ttl: real)
    requires a != b && b in agents && HoldsName(agents, a, name) && Others(agents, a, name)
    ensures var after := Acquired(Released(agents, a, name), b, name, now, ttl);
      a in after && HoldsName(after, b, name)
  {
    var released := Released(agents, a, name);
    assert Granted(released, b, name, now);
  }

  ghost predicate Others(agents: Agents, a: Id, name: string) {
    forall x :: x in agents && x != a ==> name !in agents[x].locks
  }

  ghost function After(p: (World, real), step: Step, hash: Objects -> string): (World, real) {
    Apply(p.0, p.1, step, hash)
  }

  lemma Unfold(w: World, clock: real, steps: seq<Step>, step: Step, hash: Objects -> string)
    ensures Run(w, clock, steps + [step], hash) == After(Run(w, clock, steps, hash), step, hash)
  {
    assert (steps + [step])[..|steps|] == steps;
  }

  lemma RunOfFive(w: World, clock: real, s1: Step, s2: Step, s3: Step, s4: Step, s5: Step, hash: Objects -> string)
    ensures Run(w, clock, [s1] + [s2] + [s3] + [s4] + [s5], hash) ==
            After(After(After(After(After((w, clock), s1, hash), s2, hash), s3, hash), s4, hash), s5, hash)
  {
    assert Run(w, clock, [s1], hash) == After((w, clock), s1, hash) by {
      assert [s1][..0] == [];
      assert Run(w, clock, [], hash) == (w, clock);
    }
    var p2 := [s1] + [s2];
    Unfold(w, clock, [s1], s2, hash);
    var p3 := p2 + [s3];
    Unfold(w, clock, p2, s3, hash);
    var p4 := p3 + [s4];
    Unfold(w, clock, p3, s4, hash);
    Unfold(w, clock, p4, s5, hash);
  }

  // ---------- the manager itself ----------

  /** The heaps, of which this model follows the stored objects alone. */
  class HeapRegistry {
    var heaps: map<Id, Objects>

    constructor ()
      ensures heaps == map[]
    {
      heaps := map[];
    }

    /** An agent's heap is made when it is first asked for. */
    method Get(id: Id) returns (objects: Objects)
      modifies this
      ensures objects == if id in old(heaps) then old(heaps[id]) else map[]
      ensures heaps == old(heaps)[id := objects]
    {
      if id !in heaps {
        heaps := heaps[id := map[]];
      }
      objects := heaps[id];
    }

    method Replace(id: Id, objects: Objects)
      modifies this
      ensures heaps == old(heaps)[id := objects]
    {
      heaps := heaps[id := objects];
    }
  }

  class CheckpointManager {
    const heapRegistry: HeapRegistry
    const registry: AgentRegistry
    const bus: Bus.MessageBus
    const hash: Objects -> string
    var files: map<string, Snapshot>

    constructor (heapRegistry: HeapRegistry, registry: AgentRegistry, bus: Bus.MessageBus, hash: Objects -> string)
      ensures this.heapRegistry == heapRegistry && this.registry == registry && this.bus == bus && this.hash == hash
      ensures files == map[]
    {
      this.heapRegistry, this.registry, this.bus, this.hash := heapRegistry, registry, bus, hash;
      files := map[];
    }

    ghost predicate Valid()
      reads registry, bus, bus.Objects()
    {
      registry.Valid() && bus.Valid()
    }

    ghost function View(): World
      reads this`files, heapRegistry, registry, registry.Records(), bus
    {
      World(registry.View(), heapRegistry.heaps, bus.View(), files)
    }

    method RecordState(id: Id) returns (state: Option<AgentState>)
      ensures state == StateOf(registry.View(), id)
    {
      if id !in registry.agents {
        return None;
      }
      var r := registry.agents[id];
      return Some(AgentState(r.status, r.usage, r.metadata, r.locks, r.task));
    }

    /** What is read of the inbox is marked read on the way. */
    method Capture(id: Id, title: Option<string>, now: real) returns (snapshot: Snapshot)
      requires Valid()
      modifies heapRegistry, bus, bus.Objects()
      ensures Valid() && snapshot == SnapshotOf(old(View()), id, title, now, hash)
      ensures heapRegistry.heaps == old(heapRegistry.heaps)[id := HeapOf(old(View()), id)]
      ensures bus.View() == Bus.Received(old(bus.View()), id, true, INBOX_LIMIT, now)
    {
      ghost var before := View();
      var state := RecordState(id);
      var memory := heapRegistry.Get(id);
      var inbox := bus.Receive(id, true, INBOX_LIMIT, now);
      assert inbox == InboxCopies(Taken(before, id, now));
      snapshot := Snapshot(id, title, now, memory, inbox, state, hash(memory));
    }

    /** The records are not touched. */
    method Save(id: Id, checkpoint: string, title: Option<string>, now: real)
      requires Valid()
      modifies this`files, heapRegistry, bus, bus.Objects()
      ensures Valid()
      ensures heapRegistry.heaps == old(heapRegistry.heaps)[id := HeapOf(old(View()), id)]
      ensures bus.View() == Bus.Received(old(bus.View()), id, true, INBOX_LIMIT, now)
      ensures files == old(files)[checkpoint := SnapshotOf(old(View()), id, title, now, hash)]
      ensures Captures(old(View()), id, title, now, hash, files[checkpoint])
    {
      SnapshotTells(View(), id, title, now, hash);
      var snapshot := Capture(id, title, now);
      files := files[checkpoint := snapshot];
    }

    method RestoreRecord(id: Id, state: Option<AgentState>)
      requires registry.Valid()
      modifies registry.Records()
      ensures registry.View() == WithState(old(registry.View()), id, state)
    {
      if id in registry.agents && state.Some? {
        var r := registry.agents[id];
        r.usage, r.metadata, r.locks := state.value.usage, state.value.metadata, state.value.locks;
        assert registry.View() == WithState(old(registry.View()), id, state);
      }
    }

    method Restore(id: Id, checkpoint: string) returns (ok: bool)
      requires Valid()
      modifies heapRegistry, registry.Records()
      ensures Valid() && View() == Restored(old(View()), id, checkpoint)
      ensures ok <==> Found(old(View()), id, checkpoint)
    {
      if checkpoint !in files || files[checkpoint].agent != id {
        return false;
      }
      ghost var before := View();
      heapRegistry.Replace(id, files[checkpoint].memory);
      assert registry.View() == before.agents;
      RestoreRecord(id, files[checkpoint].state);
      return true;
    }

    /** Fails when either checkpoint is missing. */
    method Compare(a: string, b: string) returns (r: Option<Diff>)
      ensures r == if a in files && b in files then Some(DiffOf(files[a], files[b])) else None
      ensures r.Some? <==> a in files && b in files
      ensures r.Some? ==>
                KeysTold(files[a].memory, files[b].memory, r.value) &&
                StatesTold(files[a].state, files[b].state, r.value) &&
                InboxTold(files[a].inbox, files[b].inbox, r.value) &&
                (r.value.digestChanged <==> files[a].digest != files[b].digest)
    {
      if a !in files || b !in files {
        return None;
      }
      DiffTells(files[a], files[b]);
      return Some(DiffOf(files[a], files[b]));
    }
  }
}
