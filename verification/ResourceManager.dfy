/** Pruning of an agent's semantic memory: metadata lines, embedding rows and the id index together. */
module ResourceManager {
  import opened Wrappers
  import opened Sorting
  import Sequences

  datatype Memory = Memory(memoryId: Option<string>, accessCount: int, thought: string, timestamp: Option<real>)

  predicate Contains(s: string, part: string) {
    part <= s || (s != "" && Contains(s[1..], part))
  }

  /** High scores are kept, low ones pruned; `now` is the clock during the call. */
  function KeepScore(m: Memory, now: real): real {
    var ageDays := (now - (if m.timestamp.Some? then m.timestamp.value else now)) / 86400.0;
    (m.accessCount as real) * 10.0
    + (if Contains(m.thought, "Goal completed") then 100.0 else 0.0)
    + (if Contains(m.thought, "Self-directed") then 50.0 else 0.0)
    + (if Contains(m.thought, "FAILED") then 30.0 else 0.0)
    - ageDays * 0.5
  }

  function Decimal(n: nat): string {
    if n < 10 then [('0' as int + n) as char] else Decimal(n / 10) + [('0' as int + n % 10) as char]
  }

  /** The name under which line `pos` is indexed. */
  function IndexName(lines: seq<Memory>, pos: nat): string
    requires pos < |lines|
  {
    if lines[pos].memoryId.Some? then lines[pos].memoryId.value else Decimal(pos)
  }

  function Positions(n: nat): seq<nat> {
    seq(n, i => i)
  }

  /** Line positions, best score first. */
  function Ranked(lines: seq<Memory>, now: real): seq<nat> {
    SortDesc(Positions(|lines|), ScoreAt(lines, now))
  }

  function ScoreAt(lines: seq<Memory>, now: real): nat -> real {
    (i: nat) => if i < |lines| then KeepScore(lines[i], now) else 0.0
  }

  function Kept(lines: seq<Memory>, limit: nat, now: real): seq<nat>
    requires limit <= |lines|
  {
    RankedPermutes(lines, now);
    SortAsc(Ranked(lines, now)[..limit], PositionKey)
  }

  function PositionKey(i: nat): real {
    i as real
  }

  lemma RankedPermutes(lines: seq<Memory>, now: real)
    ensures |Ranked(lines, now)| == |lines| && Permutation(Ranked(lines, now), Positions(|lines|))
    ensures SortedDown(Ranked(lines, now), ScoreAt(lines, now))
    ensures TiesByRank(Ranked(lines, now), ScoreAt(lines, now), i => i)
  {
    SortDescSorts(Positions(|lines|), ScoreAt(lines, now));
    SortDescTies(Positions(|lines|), ScoreAt(lines, now), i => i);
  }

  /** `a` is kept before `b`: a better score, or the same score and an earlier line. */
  ghost predicate Beats(lines: seq<Memory>, now: real, a: nat, b: nat)
    requires a < |lines| && b < |lines|
  {
    var x, y := KeepScore(lines[a], now), KeepScore(lines[b], now);
    x > y || (x == y && a < b)
  }

  lemma KeptMembers(lines: seq<Memory>, limit: nat, now: real, d: nat)
    requires limit <= |lines|
    ensures |Kept(lines, limit, now)| == limit <= |Ranked(lines, now)|
    ensures d in Kept(lines, limit, now) <==> d in Ranked(lines, now)[..limit]
    ensures d in Ranked(lines, now) <==> d < |lines|
  {
    RankedPermutes(lines, now);
    SortAscSorts(Ranked(lines, now)[..limit], PositionKey);
    PermutationMembers(Kept(lines, limit, now), Ranked(lines, now)[..limit], d);
    PermutationMembers(Ranked(lines, now), Positions(|lines|), d);
    assert d < |lines| ==> Positions(|lines|)[d] == d;
  }

  lemma KeptDistinct(lines: seq<Memory>, limit: nat, now: real)
    requires limit <= |lines|
    ensures var kept := Kept(lines, limit, now); forall i, j :: 0 <= i < j < |kept| ==> kept[i] != kept[j]
  {
    var ranked := Ranked(lines, now);
    RankedPermutes(lines, now);
    PermutationDistinct(ranked, Positions(|lines|));
    SortAscSorts(ranked[..limit], PositionKey);
    PermutationDistinct(Kept(lines, limit, now), ranked[..limit]);
  }

  lemma KeptInOrder(lines: seq<Memory>, limit: nat, now: real)
    requires limit <= |lines|
    ensures var kept := Kept(lines, limit, now);
      |kept| == limit && (forall i :: 0 <= i < limit ==> kept[i] < |lines|) &&
      forall i, j :: 0 <= i < j < limit ==> kept[i] < kept[j]
  {
    var kept := Kept(lines, limit, now);
    KeptMembers(lines, limit, now, 0);
    KeptDistinct(lines, limit, now);
    SortAscSorts(Ranked(lines, now)[..limit], PositionKey);
    forall i | 0 <= i < limit ensures kept[i] < |lines| {
      KeptMembers(lines, limit, now, kept[i]);
      assert kept[i] in kept;
    }
    forall i, j | 0 <= i < j < limit ensures kept[i] < kept[j] {
      assert PositionKey(kept[i]) <= PositionKey(kept[j]);
    }
  }

  lemma KeptBeatsDropped(lines: seq<Memory>, limit: nat, now: real, k: nat, d: nat)
    requires limit <= |lines| && k in Kept(lines, limit, now) && d < |lines| && d !in Kept(lines, limit, now)
    ensures k < |lines| && Beats(lines, now, k, d)
  {
    var ranked := Ranked(lines, now);
    KeptMembers(lines, limit, now, k);
    KeptMembers(lines, limit, now, d);
    RankedPermutes(lines, now);
    var p :| 0 <= p < limit && ranked[..limit][p] == k;
    var q :| 0 <= q < |ranked| && ranked[q] == d;
    assert forall x :: 0 <= x < limit ==> ranked[x] in ranked[..limit];
    assert ScoreAt(lines, now)(ranked[p]) >= ScoreAt(lines, now)(ranked[q]);
  }

  /** Exactly `limit` lines are kept, in their old order, and each beats every dropped one. */
  lemma KeptAreTheBest(lines: seq<Memory>, limit: nat, now: real)
    requires limit <= |lines|
    ensures var kept := Kept(lines, limit, now);
      |kept| == limit && (forall i :: 0 <= i < limit ==> kept[i] < |lines|) &&
      (forall i, j :: 0 <= i < j < limit ==> kept[i] < kept[j]) &&
      forall i, d :: 0 <= i < limit && 0 <= d < |lines| && d !in kept ==> Beats(lines, now, kept[i], d)
  {
    var kept := Kept(lines, limit, now);
    KeptInOrder(lines, limit, now);
    forall i, d | 0 <= i < limit && 0 <= d < |lines| && d !in kept
      ensures Beats(lines, now, kept[i], d)
    {
      KeptBeatsDropped(lines, limit, now, kept[i], d);
    }
  }

  /** The days that a memory counts for: its date, and what its uses and its outcome are worth in days. */
  function Days(m: Memory): real
    requires m.timestamp.Some?
  {
    m.timestamp.value / 86400.0 + 20.0 * (m.accessCount as real) +
    (if Contains(m.thought, "Goal completed") then 200.0 else 0.0) +
    (if Contains(m.thought, "Self-directed") then 100.0 else 0.0) +
    (if Contains(m.thought, "FAILED") then 60.0 else 0.0)
  }

  ghost predicate AllDated(lines: seq<Memory>) {
    forall i :: 0 <= i < |lines| ==> lines[i].timestamp.Some?
  }

  /**
   * Newer memories beat older ones, an access is worth twenty days, a completed goal two hundred, a self-directed
   * thought a hundred, a failure sixty; so which of two dated memories is kept does not depend on the clock.
   */
  lemma BeatsIff(lines: seq<Memory>, now: real, a: nat, b: nat)
    requires a < |lines| && b < |lines| && lines[a].timestamp.Some? && lines[b].timestamp.Some?
    ensures Beats(lines, now, a, b) <==>
      Days(lines[a]) > Days(lines[b]) || (Days(lines[a]) == Days(lines[b]) && a < b)
  {
    ScoreInDays(lines[a], now);
    ScoreInDays(lines[b], now);
  }

  lemma ScoreInDays(m: Memory, now: real)
    requires m.timestamp.Some?
    ensures 2.0 * KeepScore(m, now) == Days(m) - now / 86400.0
  {
  }

  /** A memory without a date counts as written now, so it beats every older one of no more uses and no mark. */
  lemma UndatedIsNew(lines: seq<Memory>, now: real, a: nat, b: nat)
    requires a < |lines| && b < |lines| && lines[a].timestamp.None?
    ensures Beats(lines, now, a, b) <==> Beats(lines[a := lines[a].(timestamp := Some(now))], now, a, b)
  {
  }

  /** Pruning dated memories keeps, of every kept and dropped one, the one with more days, or the earlier line. */
  lemma KeptHaveMoreDays(lines: seq<Memory>, limit: nat, now: real, k: nat, d: nat)
    requires limit <= |lines| && AllDated(lines)
    requires k in Kept(lines, limit, now) && d < |lines| && d !in Kept(lines, limit, now)
    ensures k < |lines| && (Days(lines[k]) > Days(lines[d]) || (Days(lines[k]) == Days(lines[d]) && k < d))
  {
    KeptBeatsDropped(lines, limit, now, k, d);
    BeatsIff(lines, now, k, d);
  }

  /** What is kept of dated memories is the same whenever they are pruned. */
  lemma KeptIsTimeless(lines: seq<Memory>, limit: nat, now: real, later: real)
    requires limit <= |lines| && AllDated(lines)
    ensures Kept(lines, limit, now) == Kept(lines, limit, later)
  {
    var a, b := Kept(lines, limit, now), Kept(lines, limit, later);
    KeptInOrder(lines, limit, now);
    KeptInOrder(lines, limit, later);
    if exists x :: x in a && x !in b {
      var x :| x in a && x !in b;
      var y := OtherKept(lines, limit, now, later, x);
      KeptHaveMoreDays(lines, limit, now, x, y);
      KeptHaveMoreDays(lines, limit, later, y, x);
      assert false;
    }
    SortedSame(a, b);
  }

  ghost predicate Rising(s: seq<nat>) {
    forall i, j :: 0 <= i < j < |s| ==> s[i] < s[j]
  }

  /** When one list has something that the other of the same length has not, so has the other. */
  lemma OtherKept(lines: seq<Memory>, limit: nat, now: real, later: real, x: nat) returns (y: nat)
    requires limit <= |lines| && x in Kept(lines, limit, now) && x !in Kept(lines, limit, later)
    ensures x < |lines| && y < |lines| && y in Kept(lines, limit, later) && y !in Kept(lines, limit, now)
  {
    var a, b := Kept(lines, limit, now), Kept(lines, limit, later);
    KeptInOrder(lines, limit, now);
    KeptInOrder(lines, limit, later);
    Sequences.DistinctSize(a);
    Sequences.DistinctSize(b);
    if forall z :: z in b ==> z in a {
      assert Sequences.Members(b) <= Sequences.Members(a) - {x};
      Sequences.SubsetSize(Sequences.Members(b), Sequences.Members(a) - {x});
      assert false;
    }
    y :| y in b && y !in a;
  }

  lemma {:induction false} SortedSame(a: seq<nat>, b: seq<nat>)
    requires |a| == |b| && Rising(a) && Rising(b) && forall x :: x in a ==> x in b
    ensures a == b
  {
    if a != [] {
      var n := |a| - 1;
      assert a[n] in a;
      var i :| 0 <= i < |b| && b[i] == a[n];
      if i < n {
        RisingFits(a, b, i);
      }
      forall x | x in a[..n] ensures x in b[..n] {
        var k :| 0 <= k < n && a[k] == x;
        assert a[k] in a && a[k] < a[n];
        var j :| 0 <= j < |b| && b[j] == x;
      }
      SortedSame(a[..n], b[..n]);
    }
  }

  /** A rising list of members of another has at most as many as lie up to its last. */
  lemma RisingFits(a: seq<nat>, b: seq<nat>, i: nat)
    requires Rising(a) && Rising(b) && (forall x :: x in a ==> x in b)
    requires a != [] && i < |b| && b[i] == a[|a| - 1]
    ensures |a| <= i + 1
  {
    forall x | x in a ensures x in b[..i + 1] {
      var k :| 0 <= k < |a| && a[k] == x;
      var j :| 0 <= j < |b| && b[j] == x;
      assert j <= i;
    }
    Sequences.DistinctSize(a);
    Sequences.MembersBound(b[..i + 1]);
    Sequences.SubsetSize(Sequences.Members(a), Sequences.Members(b[..i + 1]));
  }

  function Select<T>(xs: seq<T>, at: seq<nat>): seq<T>
    requires forall i :: 0 <= i < |at| ==> at[i] < |xs|
  {
    seq(|at|, i requires 0 <= i < |at| => xs[at[i]])
  }

  /** The rebuilt index: names of the kept lines at their new positions, the last one winning. */
  function Reindex(lines: seq<Memory>, kept: seq<nat>): map<string, nat>
    requires forall i :: 0 <= i < |kept| ==> kept[i] < |lines|
  {
    if kept == [] then map[] else
      var last := |kept| - 1;
      Reindex(lines, kept[..last])[IndexName(lines, kept[last]) := last]
  }

  lemma {:induction false} ReindexFacts(lines: seq<Memory>, kept: seq<nat>)
    requires forall i :: 0 <= i < |kept| ==> kept[i] < |lines|
    ensures forall name :: name in Reindex(lines, kept) ==>
      Reindex(lines, kept)[name] < |kept| && IndexName(lines, kept[Reindex(lines, kept)[name]]) == name
    ensures forall i :: 0 <= i < |kept| ==>
      IndexName(lines, kept[i]) in Reindex(lines, kept) && Reindex(lines, kept)[IndexName(lines, kept[i])] >= i
  {
    if kept != [] {
      ReindexFacts(lines, kept[..|kept| - 1]);
    }
  }

  /** Every kept line is found at its new position exactly when the kept names are distinct. */
  lemma IndexAgreesIffNamesDistinct(lines: seq<Memory>, kept: seq<nat>)
    requires forall i :: 0 <= i < |kept| ==> kept[i] < |lines|
    ensures var index := Reindex(lines, kept);
      (forall i :: 0 <= i < |kept| ==> IndexName(lines, kept[i]) in index && index[IndexName(lines, kept[i])] == i)
      <==> forall i, j :: 0 <= i < j < |kept| ==> IndexName(lines, kept[i]) != IndexName(lines, kept[j])
  {
    var index := Reindex(lines, kept);
    ReindexFacts(lines, kept);
    if forall i, j :: 0 <= i < j < |kept| ==> IndexName(lines, kept[i]) != IndexName(lines, kept[j]) {
      forall i | 0 <= i < |kept| ensures index[IndexName(lines, kept[i])] == i {
        var name := IndexName(lines, kept[i]);
        assert index[name] >= i && IndexName(lines, kept[index[name]]) == name;
      }
    } else {
      var i, j :| 0 <= i < j < |kept| && IndexName(lines, kept[i]) == IndexName(lines, kept[j]);
      assert index[IndexName(lines, kept[j])] >= j;
    }
  }

  /**
   * With distinct names and an embedding for every line, new line j, new row j and the index entry of that name all
   * come from the same old record, and the index has no other entries.
   */
  lemma PartsStayTogether<E>(lines: seq<Memory>, embeddings: seq<E>, limit: nat, now: real)
    requires limit <= |lines| == |embeddings|
    requires forall i, j :: 0 <= i < j < |lines| ==> IndexName(lines, i) != IndexName(lines, j)
    ensures var kept := Kept(lines, limit, now);
      |kept| == limit && Covers(kept, |lines|) &&
      (forall j :: 0 <= j < limit ==>
        Select(lines, kept)[j] == lines[kept[j]] && Select(embeddings, kept)[j] == embeddings[kept[j]] &&
        IndexName(lines, kept[j]) in Reindex(lines, kept) && Reindex(lines, kept)[IndexName(lines, kept[j])] == j) &&
      (forall name :: name in Reindex(lines, kept) ==>
        exists j :: 0 <= j < limit && IndexName(lines, kept[j]) == name)
  {
    var kept := Kept(lines, limit, now);
    KeptInOrder(lines, limit, now);
    ReindexFacts(lines, kept);
    IndexAgreesIffNamesDistinct(lines, kept);
  }

  /** The stored files of one agent; a missing metadata or embedding file stops every operation. */
  class SemanticStore<E> {
    var hasFiles: bool
    var lines: seq<Memory>
    var embeddings: seq<E>
    var index: map<string, nat>

    constructor (hasFiles: bool, lines: seq<Memory>, embeddings: seq<E>, index: map<string, nat>)
      ensures this.hasFiles == hasFiles && this.lines == lines && this.embeddings == embeddings && this.index == index
    {
      this.hasFiles, this.lines, this.embeddings, this.index := hasFiles, lines, embeddings, index;
    }

    /** Too few embedding rows for the chosen lines raise before anything is written, and are swallowed. */
    ghost predicate Prunes(limit: nat, now: real)
      reads this
    {
      hasFiles && |lines| > limit && Covers(Kept(lines, limit, now), |embeddings|)
    }

    method PruneMemories(limit: nat, now: real) returns (pruned: nat)
      modifies this
      ensures hasFiles == old(hasFiles)
      ensures !old(Prunes(limit, now)) ==> pruned == 0 && unchanged(this)
      ensures old(Prunes(limit, now)) ==>
                (var kept := Kept(old(lines), limit, now);
                 pruned == |old(lines)| - limit && |kept| == limit &&
                 Covers(kept, |old(lines)|) && Covers(kept, |old(embeddings)|) &&
                 lines == Select(old(lines), kept) && embeddings == Select(old(embeddings), kept) &&
                 index == Reindex(old(lines), kept))
    {
      if !hasFiles || |lines| <= limit {
        return 0;
      }
      var records := lines;
      KeptInOrder(records, limit, now);
      RankedPermutes(records, now);
      var scored := Ranked(records, now);
      var keepIndices := SortAsc(scored[..limit], PositionKey);
      if exists i :: i in keepIndices && i >= |embeddings| {
        return 0;
      }
      CoversMembers(keepIndices, |embeddings|);
      pruned := |records| - |keepIndices|;
      lines := Select(records, keepIndices);
      embeddings := Select(embeddings, keepIndices);
      index := BuildIndex(records, keepIndices);
    }

    static method BuildIndex(records: seq<Memory>, keepIndices: seq<nat>) returns (newIndex: map<string, nat>)
      requires Covers(keepIndices, |records|)
      ensures newIndex == Reindex(records, keepIndices)
    {
      newIndex := map[];
      for newPos := 0 to |keepIndices|
        invariant newIndex == Reindex(records, keepIndices[..newPos])
      {
        assert keepIndices[..newPos + 1][..newPos] == keepIndices[..newPos];
        newIndex := newIndex[IndexName(records, keepIndices[newPos]) := newPos];
      }
      assert keepIndices[..|keepIndices|] == keepIndices;
    }
  }

  ghost predicate Covers(at: seq<nat>, n: nat) {
    forall i :: 0 <= i < |at| ==> at[i] < n
  }

  lemma CoversMembers(at: seq<nat>, n: nat)
    ensures Covers(at, n) <==> !exists i :: i in at && i >= n
  {
    forall i | 0 <= i < |at| ensures at[i] in at {}
  }
}
