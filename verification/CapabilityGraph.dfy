/** The capability store: registry lines, embedding rows, and the index that ties ids to rows. */
module CapabilityGraph {
  import opened Wrappers
  import opened Sorting

  type Id = string

  datatype Capability = Capability(id: Id, name: string, description: string, usageCount: nat, lastUsed: real)

  /** The three stored files. A row of -1 marks a capability registered without an embedding. */
  datatype Store<V> = Store(registry: seq<Capability>, embeddings: seq<V>, index: map<Id, int>)

  /** Registry and index hold the same ids, once each and never empty. */
  ghost predicate IdsAgree(registry: seq<Capability>, index: map<Id, int>) {
    (forall i, j :: 0 <= i < j < |registry| ==> registry[i].id != registry[j].id) &&
    (forall i :: 0 <= i < |registry| ==> registry[i].id in index && registry[i].id != "") &&
    forall id :: id in index ==> Listed(registry, id)
  }

  /** The rows in use are exactly the `n` embedding rows, each owned by one id. */
  ghost predicate RowsAgree(index: map<Id, int>, n: nat) {
    (forall id :: id in index ==> -1 <= index[id] < n) &&
    (forall a, b :: a in index && b in index && a != b && index[a] >= 0 ==> index[a] != index[b]) &&
    forall row :: 0 <= row < n ==> Owned(index, row)
  }

  ghost predicate Valid<V>(s: Store<V>) {
    IdsAgree(s.registry, s.index) && RowsAgree(s.index, |s.embeddings|)
  }

  ghost predicate Listed(registry: seq<Capability>, id: Id) {
    exists i :: 0 <= i < |registry| && registry[i].id == id
  }

  ghost predicate Owned(index: map<Id, int>, row: int) {
    exists id :: id in index && index[id] == row
  }

  // ---------- registering and using ----------

  function Registered<V>(s: Store<V>, cap: Capability, embedding: Option<V>): Store<V> {
    if cap.id in s.index then s else
      Store(s.registry + [cap],
            if embedding.Some? then s.embeddings + [embedding.value] else s.embeddings,
            s.index[cap.id := if embedding.Some? then |s.embeddings| else -1])
  }

  function Used(registry: seq<Capability>, id: Id, now: real): seq<Capability> {
    if registry == [] then [] else
      var last := registry[|registry| - 1];
      Used(registry[..|registry| - 1], id, now) +
      [if last.id == id then last.(usageCount := last.usageCount + 1, lastUsed := now) else last]
  }

  lemma {:induction false} UsedFacts(registry: seq<Capability>, id: Id, now: real)
    ensures |Used(registry, id, now)| == |registry|
    ensures forall i :: 0 <= i < |registry| ==>
      Used(registry, id, now)[i] ==
        if registry[i].id == id then registry[i].(usageCount := registry[i].usageCount + 1, lastUsed := now)
        else registry[i]
  {
    if registry != [] {
      UsedFacts(registry[..|registry| - 1], id, now);
    }
  }

  lemma NewIdAgrees(registry: seq<Capability>, index: map<Id, int>, cap: Capability, row: int)
    requires IdsAgree(registry, index) && cap.id !in index && cap.id != ""
    ensures IdsAgree(registry + [cap], index[cap.id := row])
  {
    var more, wider := registry + [cap], index[cap.id := row];
    forall id | id in wider ensures Listed(more, id) {
      if id == cap.id {
        assert more[|registry|].id == id;
      } else {
        assert Listed(registry, id);
        var i :| 0 <= i < |registry| && registry[i].id == id;
        assert more[i].id == id;
      }
    }
  }

  lemma NewRowAgrees(index: map<Id, int>, n: nat, id: Id, embedded: bool)
    requires RowsAgree(index, n) && id !in index
    ensures RowsAgree(index[id := if embedded then n else -1], if embedded then n + 1 else n)
  {
    var wider := index[id := if embedded then n else -1];
    forall row | 0 <= row < (if embedded then n + 1 else n) ensures Owned(wider, row) {
      if row < n {
        assert Owned(index, row);
        var x :| x in index && index[x] == row;
        assert x in wider && wider[x] == row;
      } else {
        assert wider[id] == row;
      }
    }
  }

  /** Registration keeps the three files in agreement, with or without an embedding. */
  lemma RegisteredKeepsValid<V>(s: Store<V>, cap: Capability, embedding: Option<V>)
    requires Valid(s) && cap.id != ""
    ensures Valid(Registered(s, cap, embedding))
  {
    if cap.id !in s.index {
      NewIdAgrees(s.registry, s.index, cap, if embedding.Some? then |s.embeddings| else -1);
      NewRowAgrees(s.index, |s.embeddings|, cap.id, embedding.Some?);
    }
  }

  /** Using a capability changes its own record only, and keeps the ids. */
  lemma UsedKeepsIds(registry: seq<Capability>, index: map<Id, int>, id: Id, now: real)
    requires IdsAgree(registry, index)
    ensures IdsAgree(Used(registry, id, now), index)
    ensures id !in index ==> Used(registry, id, now) == registry
  {
    UsedFacts(registry, id, now);
    SameIdsAgree(registry, Used(registry, id, now), index);
    if id !in index {
      assert forall i :: 0 <= i < |registry| ==> registry[i].id != id;
    }
  }

  lemma SameIdsAgree(a: seq<Capability>, b: seq<Capability>, index: map<Id, int>)
    requires IdsAgree(a, index) && |a| == |b| && forall i :: 0 <= i < |a| ==> b[i].id == a[i].id
    ensures IdsAgree(b, index)
  {
    forall x | x in index ensures Listed(b, x) {
      assert Listed(a, x);
      var i :| 0 <= i < |a| && a[i].id == x;
      assert b[i].id == x;
    }
  }

  datatype Step<V> = Register(cap: Capability, embedding: Option<V>) | Use(id: Id, now: real)

  function Apply<V>(s: Store<V>, step: Step<V>): Store<V> {
    match step
    case Register(cap, embedding) => Registered(s, cap, embedding)
    case Use(id, now) => s.(registry := Used(s.registry, id, now))
  }

  function Run<V>(steps: seq<Step<V>>): Store<V> {
    if steps == [] then Store([], [], map[]) else Apply(Run(steps[..|steps| - 1]), steps[|steps| - 1])
  }

  /** Over every run of registering and using, the registry, the index and the embedding rows agree. */
  lemma {:induction false} RunKeepsValid<V>(steps: seq<Step<V>>)
    requires forall i :: 0 <= i < |steps| ==> steps[i].Register? ==> steps[i].cap.id != ""
    ensures Valid(Run(steps))
  {
    if steps != [] {
      RunKeepsValid(steps[..|steps| - 1]);
      var s, step := Run(steps[..|steps| - 1]), steps[|steps| - 1];
      match step
      case Register(cap, embedding) => RegisteredKeepsValid(s, cap, embedding);
      case Use(id, now) => UsedKeepsIds(s.registry, s.index, id, now);
    }
  }

  // ---------- what was registered is kept ----------

  /** The first step that registers `id`. */
  ghost predicate FirstFor<V>(steps: seq<Step<V>>, k: nat, id: Id) {
    k < |steps| && steps[k].Register? && steps[k].cap.id == id &&
    forall j :: 0 <= j < k && steps[j].Register? ==> steps[j].cap.id != id
  }

  ghost function UsesSince<V>(steps: seq<Step<V>>, k: nat, id: Id): set<nat> {
    set j: nat | k < j < |steps| && steps[j].Use? && steps[j].id == id
  }

  /** What a store holds under `id`: the record as it was registered, used `n` times, and its embedding in its row. */
  ghost predicate Keeps<V>(s: Store<V>, cap: Capability, embedding: Option<V>, n: nat) {
    (exists i :: 0 <= i < |s.registry| && IsUsed(s.registry[i], cap, n)) && cap.id in s.index &&
    match embedding
    case None => s.index[cap.id] == -1
    case Some(e) => 0 <= s.index[cap.id] < |s.embeddings| && s.embeddings[s.index[cap.id]] == e
  }

  predicate IsUsed(r: Capability, cap: Capability, n: nat) {
    r.id == cap.id && r.name == cap.name && r.description == cap.description && r.usageCount == cap.usageCount + n
  }

  lemma RegisterKeeps<V>(s: Store<V>, cap: Capability, embedding: Option<V>)
    requires cap.id !in s.index
    ensures Keeps(Registered(s, cap, embedding), cap, embedding, 0)
  {
    var t := Registered(s, cap, embedding);
    assert IsUsed(t.registry[|s.registry|], cap, 0);
  }

  lemma LaterKeeps<V>(s: Store<V>, step: Step<V>, cap: Capability, embedding: Option<V>, n: nat)
    requires Keeps(s, cap, embedding, n)
    ensures Keeps(Apply(s, step), cap, embedding, n + if step.Use? && step.id == cap.id then 1 else 0)
  {
    var t := Apply(s, step);
    var i :| 0 <= i < |s.registry| && IsUsed(s.registry[i], cap, n);
    match step
    case Register(other, _) => assert t.registry[i] == s.registry[i];
    case Use(id, now) =>
      UsedFacts(s.registry, id, now);
      assert IsUsed(t.registry[i], cap, n + if id == cap.id then 1 else 0);
  }

  lemma {:induction false} UnknownIsNotIndexed<V>(steps: seq<Step<V>>, id: Id)
    requires forall j :: 0 <= j < |steps| && steps[j].Register? ==> steps[j].cap.id != id
    ensures id !in Run(steps).index
  {
    if steps != [] {
      UnknownIsNotIndexed(steps[..|steps| - 1], id);
    }
  }

  /**
   * Over every run: what the first registration of an id brought is there at the end, its description with the uses
   * counted since, and its embedding in the row that the index names, or no row if it came without one.
   */
  lemma {:induction false} RegisteredIsKept<V>(steps: seq<Step<V>>, k: nat, id: Id)
    requires FirstFor(steps, k, id)
    ensures Keeps(Run(steps), steps[k].cap, steps[k].embedding, |UsesSince(steps, k, id)|)
  {
    var n := |steps| - 1;
    var front := steps[..n];
    if k < n {
      RegisteredIsKept(front, k, id);
      LaterKeeps(Run(front), steps[n], steps[k].cap, steps[k].embedding, |UsesSince(front, k, id)|);
      UsesSnoc(steps, k, id);
    } else {
      UnknownIsNotIndexed(front, id);
      RegisterKeeps(Run(front), steps[k].cap, steps[k].embedding);
      assert UsesSince(steps, k, id) == {};
    }
  }

  lemma UsesSnoc<V>(steps: seq<Step<V>>, k: nat, id: Id)
    requires k < |steps| - 1
    ensures var front, last := steps[..|steps| - 1], steps[|steps| - 1];
      |UsesSince(steps, k, id)| == |UsesSince(front, k, id)| + if last.Use? && last.id == id then 1 else 0
  {
    var n := |steps| - 1;
    var front, last := steps[..n], steps[n];
    assert UsesSince(steps, k, id) ==
      if last.Use? && last.id == id then UsesSince(front, k, id) + {n} else UsesSince(front, k, id);
  }

  // ---------- finding ----------

  type Hit = (nat, real)

  function Score(h: Hit): real {
    h.1
  }

  function Row(h: Hit): int {
    h.0
  }

  /** The rows at or above the threshold, with their similarity, in row order. */
  function Hits<V>(embeddings: seq<V>, sim: V -> real, threshold: real): seq<Hit> {
    if embeddings == [] then [] else
      var n := |embeddings| - 1;
      Hits(embeddings[..n], sim, threshold) +
      if sim(embeddings[n]) >= threshold then [(n, sim(embeddings[n]))] else []
  }

  lemma {:induction false} HitsFacts<V>(embeddings: seq<V>, sim: V -> real, threshold: real)
    ensures var hs := Hits(embeddings, sim, threshold);
      (forall i, j :: 0 <= i < j < |hs| ==> Row(hs[i]) < Row(hs[j])) &&
      forall h: Hit :: h in hs <==> h.0 < |embeddings| && h.1 == sim(embeddings[h.0]) && h.1 >= threshold
  {
    if embeddings != [] {
      var n := |embeddings| - 1;
      HitsFacts(embeddings[..n], sim, threshold);
      assert forall i :: 0 <= i < n ==> embeddings[..n][i] == embeddings[i];
      var hs := Hits(embeddings[..n], sim, threshold);
      assert forall i :: 0 <= i < |hs| ==> hs[i] in hs;
    }
  }

  function Best<V>(embeddings: seq<V>, sim: V -> real, threshold: real, topK: nat): seq<Hit> {
    var ranked := SortDesc(Hits(embeddings, sim, threshold), Score);
    if topK < |ranked| then ranked[..topK] else ranked
  }

  /** A hit ranks before another: more similar, or as similar and in an earlier row. */
  ghost predicate Before(a: Hit, b: Hit) {
    Score(a) > Score(b) || (Score(a) == Score(b) && Row(a) < Row(b))
  }

  /** The best hits are genuine, in rank order, as many as asked for if there are that many, and beat all others. */
  lemma BestFacts<V>(embeddings: seq<V>, sim: V -> real, threshold: real, topK: nat)
    ensures var hs, best := Hits(embeddings, sim, threshold), Best(embeddings, sim, threshold, topK);
      |best| == (if topK < |hs| then topK else |hs|) &&
      (forall i :: 0 <= i < |best| ==> best[i] in hs) &&
      (forall i, j :: 0 <= i < j < |best| ==> Before(best[i], best[j])) &&
      forall i, h: Hit :: 0 <= i < |best| && h in hs && h !in best ==> Before(best[i], h)
  {
    var hs := Hits(embeddings, sim, threshold);
    var ranked, best := SortDesc(hs, Score), Best(embeddings, sim, threshold, topK);
    HitsFacts(embeddings, sim, threshold);
    RankedBefore(hs);
    forall i | 0 <= i < |best| ensures best[i] in hs {
      assert best[i] == ranked[i];
      PermutationMembers(ranked, hs, ranked[i]);
    }
    forall i, h: Hit | 0 <= i < |best| && h in hs && h !in best ensures Before(best[i], h) {
      PermutationMembers(ranked, hs, h);
      var j :| 0 <= j < |ranked| && ranked[j] == h;
      assert j >= |best| by {
        assert forall k :: 0 <= k < |best| ==> ranked[k] == best[k] && best[k] in best;
      }
      assert Before(ranked[i], ranked[j]);
    }
  }

  lemma BestRows<V>(embeddings: seq<V>, sim: V -> real, threshold: real, topK: nat)
    ensures var best := Best(embeddings, sim, threshold, topK);
      forall i :: 0 <= i < |best| ==> best[i].0 < |embeddings|
  {
    BestFacts(embeddings, sim, threshold, topK);
    HitsFacts(embeddings, sim, threshold);
  }

  lemma RankedBefore(hs: seq<Hit>)
    requires forall i, j :: 0 <= i < j < |hs| ==> Row(hs[i]) < Row(hs[j])
    ensures var ranked := SortDesc(hs, Score);
      |ranked| == |hs| && Permutation(ranked, hs) &&
      forall i, j :: 0 <= i < j < |ranked| ==> Before(ranked[i], ranked[j])
  {
    SortDescSorts(hs, Score);
    SortDescTies(hs, Score, Row);
  }

  /** The record a row belongs to. */
  ghost predicate Owner<V>(s: Store<V>, row: nat, cap: Capability) {
    cap in s.registry && cap.id in s.index && s.index[cap.id] == row
  }

  lemma OwnerIsUnique<V>(s: Store<V>, row: nat, a: Capability, b: Capability)
    requires Valid(s) && Owner(s, row, a) && Owner(s, row, b)
    ensures a == b
  {
    var i :| 0 <= i < |s.registry| && s.registry[i] == a;
    var j :| 0 <= j < |s.registry| && s.registry[j] == b;
  }

  lemma OneRecord(registry: seq<Capability>, index: map<Id, int>, id: Id, cap: Capability)
    requires IdsAgree(registry, index) && cap in registry && cap.id == id
    ensures forall i :: 0 <= i < |registry| && registry[i].id == id ==> registry[i] == cap
  {
    var j :| 0 <= j < |registry| && registry[j] == cap;
  }

  class CapabilityGraph<V> {
    var registry: seq<Capability>
    var embeddings: seq<V>
    var index: map<Id, int>

    ghost function View(): Store<V>
      reads this
    {
      Store(registry, embeddings, index)
    }

    constructor ()
      ensures Valid(View()) && registry == [] && embeddings == [] && index == map[]
    {
      registry, embeddings, index := [], [], map[];
    }

    /** `freshId` is drawn for a capability without an id; `embedding` is absent when none can be computed. */
    method Register(cap: Capability, freshId: Id, embedding: Option<V>) returns (id: Id)
      requires Valid(View()) && freshId != "" && freshId !in index
      modifies this
      ensures id == (if cap.id == "" then freshId else cap.id)
      ensures View() == Registered(old(View()), cap.(id := id), embedding) && Valid(View())
      ensures id in old(index) ==> unchanged(this)
      ensures id !in old(index) ==>
                registry == old(registry) + [cap.(id := id)] &&
                embeddings == old(embeddings) + (if embedding.Some? then [embedding.value] else []) &&
                index == old(index)[id := if embedding.Some? then |old(embeddings)| else -1]
    {
      var named := if cap.id == "" then cap.(id := freshId) else cap;
      id := named.id;
      RegisteredKeepsValid(View(), named, embedding);
      if id in index {
        return;
      }
      registry := registry + [named];
      if embedding.Some? {
        embeddings := embeddings + [embedding.value];
        index := index[id := |embeddings| - 1];
      } else {
        index := index[id := -1];
      }
    }

    method Get(id: Id) returns (cap: Option<Capability>)
      requires Valid(View())
      ensures cap.Some? <==> id in index
      ensures cap.Some? ==> cap.value in registry && cap.value.id == id
    {
      cap := None;
      if id in index {
        assert Listed(registry, id);
        for i := 0 to |registry|
          invariant cap.None? ==> forall j :: 0 <= j < i ==> registry[j].id != id
          invariant cap.Some? ==> cap.value in registry && cap.value.id == id
        {
          if cap.None? && registry[i].id == id {
            cap := Some(registry[i]);
          }
        }
      }
    }

    /** Counts one use; every other record, the rows and the index stay as they are. */
    method UpdateUsage(id: Id, now: real)
      requires Valid(View())
      modifies this`registry
      ensures Valid(View()) && registry == Used(old(registry), id, now)
    {
      var cap := Get(id);
      UsedKeepsIds(registry, index, id, now);
      if cap.Some? {
        OneRecord(registry, index, id, cap.value);
        registry := Rewrite(registry, cap.value, now);
      }
    }

    static method Rewrite(registry: seq<Capability>, cap: Capability, now: real) returns (lines: seq<Capability>)
      requires forall i :: 0 <= i < |registry| && registry[i].id == cap.id ==> registry[i] == cap
      ensures lines == Used(registry, cap.id, now)
    {
      var updated := cap.(usageCount := cap.usageCount + 1, lastUsed := now);
      lines := [];
      for i := 0 to |registry|
        invariant lines == Used(registry[..i], cap.id, now)
      {
        assert registry[..i + 1][..i] == registry[..i];
        lines := lines + [if registry[i].id == cap.id then updated else registry[i]];
      }
      assert registry[..|registry|] == registry;
    }

    /** Embedding row to capability id. */
    method RowToId() returns (rows: map<int, Id>)
      requires Valid(View())
      ensures forall row :: row in rows <==> 0 <= row < |embeddings|
      ensures forall row :: row in rows ==> rows[row] in index && index[rows[row]] == row
    {
      rows := map[];
      var rest := index.Keys;
      while rest != {}
        invariant rest <= index.Keys
        invariant forall row :: row in rows ==> row >= 0 && rows[row] in index && index[rows[row]] == row
        invariant forall id :: id in index && id !in rest && index[id] >= 0 ==> index[id] in rows
        decreases |rest|
      {
        var id :| id in rest;
        if index[id] >= 0 {
          rows := rows[index[id] := id];
        }
        rest := rest - {id};
      }
      forall row | 0 <= row < |embeddings| ensures row in rows {
        assert Owned(index, row);
      }
    }

    method IdToCap() returns (caps: map<Id, Capability>)
      requires Valid(View())
      ensures caps.Keys == index.Keys && forall id :: id in caps ==> caps[id] in registry && caps[id].id == id
    {
      caps := map[];
      for i := 0 to |registry|
        invariant forall id :: id in caps ==> id in index && caps[id] in registry && caps[id].id == id
        invariant forall j :: 0 <= j < i ==> registry[j].id in caps
      {
        caps := caps[registry[i].id := registry[i]];
      }
      forall id | id in index ensures id in caps {
        assert Listed(registry, id);
      }
    }

    /** The best `topK` capabilities at or above the threshold, each with its own record; none without an embedding. */
    method Find(sim: Option<V -> real>, topK: nat, threshold: real) returns (results: seq<(Capability, real)>)
      requires Valid(View())
      ensures sim.None? ==> results == []
      ensures sim.Some? ==>
                (var best := Best(embeddings, sim.value, threshold, topK);
                 |results| == |best| &&
                 forall i :: 0 <= i < |best| ==> results[i].1 == best[i].1 && Owner(View(), best[i].0, results[i].0))
    {
      if sim.None? {
        return [];
      }
      var rows := RowToId();
      var caps := IdToCap();
      var similarities := Collect(sim.value, threshold);
      var ranked := SortDesc(similarities, Score);
      var best := if topK < |ranked| then ranked[..topK] else ranked;
      BestRows(embeddings, sim.value, threshold, topK);
      assert best == Best(embeddings, sim.value, threshold, topK);
      assert forall i :: 0 <= i < |best| ==> best[i].0 in rows;
      results := Pair(best, rows, caps);
    }

    /** Each hit with the record its row belongs to. */
    method Pair(best: seq<Hit>, rows: map<int, Id>, caps: map<Id, Capability>)
      returns (results: seq<(Capability, real)>)
      requires forall i :: 0 <= i < |best| ==> best[i].0 in rows
      requires forall row :: row in rows ==> rows[row] in index && index[rows[row]] == row
      requires forall id :: id in index ==> id in caps && caps[id] in registry && caps[id].id == id
      ensures |results| == |best|
      ensures forall i :: 0 <= i < |best| ==> results[i].1 == best[i].1 && Owner(View(), best[i].0, results[i].0)
    {
      results := [];
      for i := 0 to |best|
        invariant |results| == i
        invariant forall j :: 0 <= j < i ==> results[j].1 == best[j].1 && Owner(View(), best[j].0, results[j].0)
      {
        var id := rows[best[i].0];
        results := results + [(caps[id], best[i].1)];
      }
    }

    method Collect(sim: V -> real, threshold: real) returns (hits: seq<Hit>)
      ensures hits == Hits(embeddings, sim, threshold)
    {
      hits := [];
      for i := 0 to |embeddings|
        invariant hits == Hits(embeddings[..i], sim, threshold)
      {
        assert embeddings[..i + 1][..i] == embeddings[..i];
        var s := sim(embeddings[i]);
        if s >= threshold {
          hits := hits + [(i, s)];
        }
      }
      assert embeddings[..|embeddings|] == embeddings;
    }
  }
}
