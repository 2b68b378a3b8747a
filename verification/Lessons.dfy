/** Durable lessons of one agent: near-duplicate merging, trimming, and promotion of candidates. */
module Lessons {
  import opened Wrappers
  import opened Sorting

  const MAX_BULLETS: nat := 15
  const MAX_FILE_BYTES: nat := 5000
  const PROMOTION_THRESHOLD: nat := 2
  const MAX_EVIDENCE: nat := 10

  datatype Category = Environment | Patterns | Constraints

  const CATEGORIES: seq<Category> := [Environment, Patterns, Constraints]

  datatype Confidence = Low | Medium | High

  datatype Lesson = Lesson(text: string, firstObserved: real, lastObserved: real, evidenceCount: nat,
                           confidence: Confidence)

  /** One list for each category. */
  datatype PerCategory<T> = PerCategory(environment: seq<T>, patterns: seq<T>, constraints: seq<T>) {
    function At(c: Category): seq<T> {
      match c
      case Environment => environment
      case Patterns => patterns
      case Constraints => constraints
    }

    function With(c: Category, list: seq<T>): (r: PerCategory<T>)
      ensures r.At(c) == list && forall d :: d != c ==> r.At(d) == At(d)
    {
      match c
      case Environment => this.(environment := list)
      case Patterns => this.(patterns := list)
      case Constraints => this.(constraints := list)
    }
  }

  type Buckets = PerCategory<Lesson>

  /** How texts and entries are read: content words, lesson family, and the length of an entry's JSON. */
  datatype Lens = Lens(words: string -> set<string>, family: string -> Option<string>, bytes: Lesson -> nat)

  // ---------- similarity ----------

  /** Jaccard similarity of the content words is at least 0.55. */
  predicate Overlap(a: set<string>, b: set<string>) {
    a != {} && b != {} && 100 * |a * b| >= 55 * |a + b|
  }

  predicate Similar(lens: Lens, existing: string, text: string) {
    (lens.family(text).Some? && lens.family(existing) == lens.family(text)) ||
    Overlap(lens.words(existing), lens.words(text))
  }

  lemma SimilarIsSymmetric(lens: Lens, a: string, b: string)
    ensures Similar(lens, a, b) <==> Similar(lens, b, a)
  {
    assert lens.words(a) * lens.words(b) == lens.words(b) * lens.words(a);
    assert lens.words(a) + lens.words(b) == lens.words(b) + lens.words(a);
  }

  /** A text is similar to itself unless it has neither a family nor a content word. */
  lemma SimilarToItself(lens: Lens, a: string)
    ensures Similar(lens, a, a) <==> lens.family(a).Some? || lens.words(a) != {}
  {
    var w := lens.words(a);
    assert w * w == w && w + w == w;
  }

  const FIRST: string := "build cache index"
  const SECOND: string := "build cache index table"
  const THIRD: string := "cache index table"

  /** Similarity chains do not close, under every reading that splits these three texts into their words. */
  lemma SimilarIsNotTransitive(lens: Lens)
    requires lens.family(FIRST).None? && lens.family(SECOND).None? && lens.family(THIRD).None?
    requires lens.words(FIRST) == {"build", "cache", "index"}
    requires lens.words(SECOND) == {"build", "cache", "index", "table"}
    requires lens.words(THIRD) == {"cache", "index", "table"}
    ensures Similar(lens, FIRST, SECOND) && Similar(lens, SECOND, THIRD) && !Similar(lens, FIRST, THIRD)
  {
    var p, q, r := lens.words(FIRST), lens.words(SECOND), lens.words(THIRD);
    assert p * q == p && p + q == q && q * r == r && q + r == q;
    assert p * r == {"cache", "index"} && p + r == q;
    assert |p| == 3 && |q| == 4 && |r| == 3 && |p * r| == 2;
  }

  /** The first of `texts` that is similar to `text`. */
  function FirstSimilar(lens: Lens, texts: seq<string>, text: string): (r: Option<nat>)
    ensures r.Some? ==> r.value < |texts| && Similar(lens, texts[r.value], text)
    ensures r.Some? ==> forall j :: 0 <= j < r.value ==> !Similar(lens, texts[j], text)
    ensures r.None? ==> forall j :: 0 <= j < |texts| ==> !Similar(lens, texts[j], text)
  {
    if texts == [] then None
    else if Similar(lens, texts[0], text) then Some(0)
    else
      match FirstSimilar(lens, texts[1..], text)
      case None => assert forall j :: 0 < j < |texts| ==> texts[j] == texts[1..][j - 1]; None
      case Some(k) => assert forall j :: 0 < j <= k ==> texts[j] == texts[1..][j - 1]; Some(k + 1)
  }

  function Texts(bucket: seq<Lesson>): (ts: seq<string>)
    ensures |ts| == |bucket| && forall k :: 0 <= k < |ts| ==> ts[k] == bucket[k].text
  {
    seq(|bucket|, k requires 0 <= k < |bucket| => bucket[k].text)
  }

  ghost predicate Apart(lens: Lens, bucket: seq<Lesson>) {
    forall i, j :: 0 <= i < j < |bucket| ==> !Similar(lens, bucket[i].text, bucket[j].text)
  }

  function Last(e: Lesson): real {
    e.lastObserved
  }

  // ---------- pass 1: merging near-duplicates ----------

  function Merge(lens: Lens, kept: seq<Lesson>, e: Lesson): seq<Lesson> {
    match FirstSimilar(lens, Texts(kept), e.text)
    case None => kept + [e]
    case Some(i) => kept[i := kept[i].(evidenceCount := kept[i].evidenceCount + e.evidenceCount)]
  }

  function MergeAll(lens: Lens, entries: seq<Lesson>): seq<Lesson> {
    if entries == [] then [] else Merge(lens, MergeAll(lens, entries[..|entries| - 1]), entries[|entries| - 1])
  }

  lemma MergeAllSnoc(lens: Lens, entries: seq<Lesson>, i: nat)
    requires i < |entries|
    ensures MergeAll(lens, entries[..i + 1]) == Merge(lens, MergeAll(lens, entries[..i]), entries[i])
  {
    assert entries[..i + 1][..i] == entries[..i];
  }

  function Deduped(lens: Lens, bucket: seq<Lesson>): seq<Lesson> {
    MergeAll(lens, SortDesc(bucket, Last))
  }

  ghost function Evidence(bucket: seq<Lesson>): nat {
    if bucket == [] then 0 else bucket[0].evidenceCount + Evidence(bucket[1..])
  }

  lemma {:induction false} EvidenceConcat(a: seq<Lesson>, b: seq<Lesson>)
    ensures Evidence(a + b) == Evidence(a) + Evidence(b)
  {
    if a == [] {
      assert a + b == b;
    } else {
      EvidenceConcat(a[1..], b);
      assert (a + b)[1..] == a[1..] + b;
    }
  }

  lemma EvidenceUpdate(kept: seq<Lesson>, i: nat, n: nat)
    requires i < |kept|
    ensures Evidence(kept[i := kept[i].(evidenceCount := kept[i].evidenceCount + n)]) == Evidence(kept) + n
  {
    var e := kept[i].(evidenceCount := kept[i].evidenceCount + n);
    assert kept == kept[..i] + ([kept[i]] + kept[i + 1..]);
    assert kept[i := e] == kept[..i] + ([e] + kept[i + 1..]);
    EvidenceConcat(kept[..i], [kept[i]] + kept[i + 1..]);
    EvidenceConcat(kept[..i], [e] + kept[i + 1..]);
    assert ([kept[i]] + kept[i + 1..])[1..] == ([e] + kept[i + 1..])[1..];
  }

  lemma {:induction false} InsertEvidence(e: Lesson, ys: seq<Lesson>, key: Lesson -> real)
    ensures Evidence(Insert(e, ys, key)) == e.evidenceCount + Evidence(ys)
  {
    var zs := Insert(e, ys, key);
    if ys != [] && key(e) > key(ys[0]) {
      InsertEvidence(e, ys[1..], key);
      assert zs[1..] == Insert(e, ys[1..], key);
    } else {
      assert zs[1..] == ys;
    }
  }

  lemma {:induction false} SortEvidence(xs: seq<Lesson>, key: Lesson -> real)
    ensures Evidence(SortAsc(xs, key)) == Evidence(xs)
  {
    if xs != [] {
      SortEvidence(xs[1..], key);
      InsertEvidence(xs[0], SortAsc(xs[1..], key), key);
    }
  }

  lemma {:induction false} MergeEvidence(lens: Lens, entries: seq<Lesson>)
    ensures Evidence(MergeAll(lens, entries)) == Evidence(entries)
  {
    if entries != [] {
      var front, e := entries[..|entries| - 1], entries[|entries| - 1];
      var kept := MergeAll(lens, front);
      MergeEvidence(lens, front);
      assert entries == front + [e];
      EvidenceConcat(front, [e]);
      MergeOneEvidence(lens, kept, e);
    }
  }

  lemma MergeOneEvidence(lens: Lens, kept: seq<Lesson>, e: Lesson)
    ensures Evidence(Merge(lens, kept, e)) == Evidence(kept) + e.evidenceCount
  {
    match FirstSimilar(lens, Texts(kept), e.text) {
      case None => EvidenceConcat(kept, [e]);
      case Some(i) => EvidenceUpdate(kept, i, e.evidenceCount);
    }
  }

  /** Merging loses no evidence. */
  lemma DedupePreservesEvidence(lens: Lens, bucket: seq<Lesson>)
    ensures Evidence(Deduped(lens, bucket)) == Evidence(bucket)
  {
    SortEvidence(bucket, Negated(Last));
    MergeEvidence(lens, SortDesc(bucket, Last));
  }

  /** The same lesson, whatever evidence it has collected. */
  predicate SameBut(a: Lesson, b: Lesson) {
    a.(evidenceCount := b.evidenceCount) == b
  }

  /** `k` stands for `e`: it is `e`, or it is similar to it and at least as recent. */
  ghost predicate StandsFor(lens: Lens, k: Lesson, e: Lesson) {
    SameBut(k, e) || (Similar(lens, k.text, e.text) && k.lastObserved >= e.lastObserved)
  }

  lemma {:induction false} MergeAllOrigin(lens: Lens, entries: seq<Lesson>, k: Lesson)
    requires k in MergeAll(lens, entries)
    ensures exists e :: e in entries && SameBut(k, e)
  {
    var front, e := entries[..|entries| - 1], entries[|entries| - 1];
    assert entries == front + [e];
    MergeOrigin(lens, MergeAll(lens, front), e, k);
    if SameBut(k, e) {
      assert e in entries;
    } else {
      var y :| y in MergeAll(lens, front) && SameBut(k, y);
      MergeAllOrigin(lens, front, y);
      var x :| x in front && SameBut(y, x);
      assert x in entries && SameBut(k, x);
    }
  }

  /** What is kept of the entries before the last one is at least as recent as it. */
  lemma KeptAreRecent(lens: Lens, entries: seq<Lesson>)
    requires SortedDown(entries, Last) && entries != []
    ensures forall k :: k in MergeAll(lens, entries[..|entries| - 1]) ==> Last(k) >= Last(entries[|entries| - 1])
  {
    var front := entries[..|entries| - 1];
    forall k | k in MergeAll(lens, front) ensures Last(k) >= Last(entries[|entries| - 1]) {
      MergeAllOrigin(lens, front, k);
      var x :| x in front && SameBut(k, x);
      var i :| 0 <= i < |front| && front[i] == x;
      assert entries[i] == x;
    }
  }

  lemma {:induction false} MergeAllApart(lens: Lens, entries: seq<Lesson>)
    requires SortedDown(entries, Last)
    ensures Apart(lens, MergeAll(lens, entries)) && SortedDown(MergeAll(lens, entries), Last)
  {
    if entries != [] {
      var front := entries[..|entries| - 1];
      MergeAllApart(lens, front);
      KeptAreRecent(lens, entries);
      MergeApart(lens, MergeAll(lens, front), entries[|entries| - 1]);
    }
  }

  lemma {:induction false} MergeAllStands(lens: Lens, entries: seq<Lesson>, x: Lesson)
    requires SortedDown(entries, Last) && x in entries
    ensures exists k :: k in MergeAll(lens, entries) && StandsFor(lens, k, x)
  {
    var front, e := entries[..|entries| - 1], entries[|entries| - 1];
    assert entries == front + [e];
    if x in front {
      MergeAllStands(lens, front, x);
    }
    KeptAreRecent(lens, entries);
    MergeStands(lens, MergeAll(lens, front), e, x);
  }

  /** Merging changes at most the evidence of an entry already kept. */
  lemma MergeKeeps(lens: Lens, kept: seq<Lesson>, e: Lesson, i: nat)
    requires i < |kept|
    ensures i < |Merge(lens, kept, e)| && SameBut(Merge(lens, kept, e)[i], kept[i])
  {
  }

  lemma MergeApart(lens: Lens, kept: seq<Lesson>, e: Lesson)
    requires Apart(lens, kept) && SortedDown(kept, Last) && forall k :: k in kept ==> Last(k) >= Last(e)
    ensures Apart(lens, Merge(lens, kept, e)) && SortedDown(Merge(lens, kept, e), Last)
  {
    var merged := Merge(lens, kept, e);
    forall i | 0 <= i < |kept| ensures merged[i].text == kept[i].text && Last(merged[i]) == Last(kept[i]) >= Last(e) {
      MergeKeeps(lens, kept, e, i);
      assert kept[i] in kept;
    }
  }

  lemma MergeStands(lens: Lens, kept: seq<Lesson>, e: Lesson, x: Lesson)
    requires x == e || exists k :: k in kept && StandsFor(lens, k, x)
    requires forall k :: k in kept ==> Last(k) >= Last(e)
    ensures exists k :: k in Merge(lens, kept, e) && StandsFor(lens, k, x)
  {
    var merged, at := Merge(lens, kept, e), FirstSimilar(lens, Texts(kept), e.text);
    assert at.Some? ==> kept[at.value] in kept && StandsFor(lens, kept[at.value], e);
    if exists k :: k in kept && StandsFor(lens, k, x) {
      var k :| k in kept && StandsFor(lens, k, x);
      var i :| 0 <= i < |kept| && kept[i] == k;
      MergeKeeps(lens, kept, e, i);
      assert merged[i] in merged && StandsFor(lens, merged[i], x);
    } else {
      assert merged[|kept|] in merged && StandsFor(lens, merged[|kept|], e);
    }
  }

  lemma MergeOrigin(lens: Lens, kept: seq<Lesson>, e: Lesson, k: Lesson)
    requires k in Merge(lens, kept, e)
    ensures SameBut(k, e) || exists x :: x in kept && SameBut(k, x)
  {
    var merged := Merge(lens, kept, e);
    var i :| 0 <= i < |merged| && merged[i] == k;
    if i < |kept| {
      MergeKeeps(lens, kept, e, i);
      assert kept[i] in kept;
    }
  }

  /** The merged bucket is pairwise dissimilar, newest first, made of old entries, and stands for all of them. */
  lemma DedupeFacts(lens: Lens, bucket: seq<Lesson>)
    ensures Apart(lens, Deduped(lens, bucket)) && SortedDown(Deduped(lens, bucket), Last)
    ensures forall k :: k in Deduped(lens, bucket) ==> exists e :: e in bucket && SameBut(k, e)
    ensures forall e :: e in bucket ==> exists k :: k in Deduped(lens, bucket) && StandsFor(lens, k, e)
  {
    var sorted := SortDesc(bucket, Last);
    SortDescSorts(bucket, Last);
    MergeAllApart(lens, sorted);
    forall k | k in MergeAll(lens, sorted) ensures exists e :: e in bucket && SameBut(k, e) {
      MergeAllOrigin(lens, sorted, k);
      var e :| e in sorted && SameBut(k, e);
      PermutationMembers(sorted, bucket, e);
    }
    forall e | e in bucket ensures exists k :: k in MergeAll(lens, sorted) && StandsFor(lens, k, e) {
      PermutationMembers(sorted, bucket, e);
      MergeAllStands(lens, sorted, e);
    }
  }

  // ---------- pass 2: at most fifteen ----------

  function Trimmed(bucket: seq<Lesson>): seq<Lesson> {
    SortDescSorts(bucket, Last);
    if |bucket| > MAX_BULLETS then SortDesc(bucket, Last)[..MAX_BULLETS] else bucket
  }

  lemma ConsApart(lens: Lens, x: Lesson, ys: seq<Lesson>)
    ensures Apart(lens, [x] + ys) <==> Apart(lens, ys) && forall y :: y in ys ==> !Similar(lens, x.text, y.text)
  {
    if Apart(lens, [x] + ys) {
      ApartTail(lens, x, ys);
    }
    if Apart(lens, ys) && forall y :: y in ys ==> !Similar(lens, x.text, y.text) {
      forall j | 0 <= j < |ys| ensures !Similar(lens, x.text, ys[j].text) {
        assert ys[j] in ys;
      }
    }
  }

  lemma ApartTail(lens: Lens, x: Lesson, ys: seq<Lesson>)
    requires Apart(lens, [x] + ys)
    ensures Apart(lens, ys) && forall y :: y in ys ==> !Similar(lens, x.text, y.text)
  {
    var zs := [x] + ys;
    forall i, j | 0 <= i < j < |ys| ensures !Similar(lens, ys[i].text, ys[j].text) {
      assert zs[i + 1] == ys[i] && zs[j + 1] == ys[j];
    }
    forall y | y in ys ensures !Similar(lens, x.text, y.text) {
      var k :| 0 <= k < |ys| && ys[k] == y;
      assert zs[0] == x && zs[k + 1] == y;
    }
  }

  lemma {:induction false} InsertApart(lens: Lens, x: Lesson, ys: seq<Lesson>, key: Lesson -> real)
    requires Apart(lens, [x] + ys)
    ensures Apart(lens, Insert(x, ys, key))
  {
    ConsApart(lens, x, ys);
    if ys != [] && key(x) > key(ys[0]) {
      var y, tail := ys[0], ys[1..];
      var rest := Insert(x, tail, key);
      assert ys == [y] + tail;
      ConsApart(lens, y, tail);
      ConsApart(lens, x, tail);
      InsertApart(lens, x, tail, key);
      InsertPermutes(x, tail, key);
      SimilarIsSymmetric(lens, x.text, y.text);
      forall z | z in rest ensures !Similar(lens, y.text, z.text) {
        assert z in multiset(rest);
        assert z == x || z in tail;
      }
      ConsApart(lens, y, rest);
    }
  }

  /** Sorting keeps a bucket pairwise dissimilar. */
  lemma {:induction false} SortApart(lens: Lens, xs: seq<Lesson>, key: Lesson -> real)
    requires Apart(lens, xs)
    ensures Apart(lens, SortAsc(xs, key))
  {
    if xs != [] {
      assert xs == [xs[0]] + xs[1..];
      ConsApart(lens, xs[0], xs[1..]);
      SortApart(lens, xs[1..], key);
      SortAscSorts(xs[1..], key);
      forall y | y in SortAsc(xs[1..], key) ensures !Similar(lens, xs[0].text, y.text) {
        PermutationMembers(SortAsc(xs[1..], key), xs[1..], y);
      }
      ConsApart(lens, xs[0], SortAsc(xs[1..], key));
      InsertApart(lens, xs[0], SortAsc(xs[1..], key), key);
    }
  }

  lemma TrimmedFacts(lens: Lens, bucket: seq<Lesson>)
    requires Apart(lens, bucket)
    ensures Apart(lens, Trimmed(bucket)) && |Trimmed(bucket)| <= MAX_BULLETS
  {
    SortApart(lens, bucket, Negated(Last));
    SortDescSorts(bucket, Last);
  }

  /** Trimming keeps the most recent fifteen, if there are more. */
  lemma TrimDropsOldest(bucket: seq<Lesson>) returns (dropped: seq<Lesson>)
    ensures Permutation(Trimmed(bucket) + dropped, bucket)
    ensures |bucket| > MAX_BULLETS ==> |Trimmed(bucket)| == MAX_BULLETS
    ensures forall k, d :: k in Trimmed(bucket) && d in dropped ==> Last(k) >= Last(d)
  {
    var sorted := SortDesc(bucket, Last);
    SortDescSorts(bucket, Last);
    if |bucket| > MAX_BULLETS {
      dropped := sorted[MAX_BULLETS..];
      assert Trimmed(bucket) + dropped == sorted;
      forall k, d | k in Trimmed(bucket) && d in dropped ensures Last(k) >= Last(d) {
        var i :| 0 <= i < MAX_BULLETS && sorted[i] == k;
        var j :| 0 <= j < |dropped| && dropped[j] == d;
        assert sorted[MAX_BULLETS + j] == d;
      }
    } else {
      dropped := [];
      assert bucket + [] == bucket;
    }
  }

  // ---------- pass 3: at most 5000 bytes ----------

  datatype Tagged = Tagged(cat: Category, entry: Lesson)

  function TagLast(t: Tagged): real {
    Last(t.entry)
  }

  function Tag(cat: Category, bucket: seq<Lesson>): seq<Tagged> {
    if bucket == [] then [] else [Tagged(cat, bucket[0])] + Tag(cat, bucket[1..])
  }

  function TagAll(buckets: Buckets): seq<Tagged>
  {
    Tag(Environment, buckets.environment) + Tag(Patterns, buckets.patterns) + Tag(Constraints, buckets.constraints)
  }

  function OfCategory(all: seq<Tagged>, cat: Category): seq<Lesson> {
    if all == [] then []
    else (if all[0].cat == cat then [all[0].entry] else []) + OfCategory(all[1..], cat)
  }

  function Gather(all: seq<Tagged>): Buckets
  {
    PerCategory(OfCategory(all, Environment), OfCategory(all, Patterns), OfCategory(all, Constraints))
  }

  /** The JSON list of a bucket: brackets, entries, and a comma and blank between them. */
  function BucketBytes(lens: Lens, bucket: seq<Lesson>): nat {
    if bucket == [] then 2
    else lens.bytes(bucket[0]) + (if |bucket| == 1 then 0 else 2) + BucketBytes(lens, bucket[1..])
  }

  /** The JSON object holding the three buckets. */
  function CatalogBytes(lens: Lens, buckets: Buckets): nat
  {
    64 + BucketBytes(lens, buckets.environment) + BucketBytes(lens, buckets.patterns)
    + BucketBytes(lens, buckets.constraints)
  }

  function DropOldest(lens: Lens, all: seq<Tagged>): seq<Tagged> {
    if all == [] || CatalogBytes(lens, Gather(all)) <= MAX_FILE_BYTES then all else DropOldest(lens, all[1..])
  }

  /** `header` is what the file holds beside the buckets; only the first measurement counts it. */
  function ByteTrimmed(lens: Lens, header: nat, buckets: Buckets): Buckets
  {
    if header + CatalogBytes(lens, buckets) > MAX_FILE_BYTES
    then Gather(DropOldest(lens, SortAsc(TagAll(buckets), TagLast)))
    else buckets
  }

  /** The pass drops a front of the list, and no longer a front than the limit needs. */
  lemma {:induction false} DropOldestFacts(lens: Lens, all: seq<Tagged>) returns (n: nat)
    ensures n <= |all| && DropOldest(lens, all) == all[n..]
    ensures CatalogBytes(lens, Gather(all[n..])) <= MAX_FILE_BYTES
    ensures n > 0 ==> CatalogBytes(lens, Gather(all[n - 1..])) > MAX_FILE_BYTES
  {
    if all == [] || CatalogBytes(lens, Gather(all)) <= MAX_FILE_BYTES {
      n := 0;
      assert all[0..] == all;
    } else {
      var m := DropOldestFacts(lens, all[1..]);
      n := m + 1;
      assert all[n..] == all[1..][m..];
      assert if m == 0 then all[n - 1..] == all else all[n - 1..] == all[1..][m - 1..];
    }
  }

  lemma OfCons(t: Tagged, all: seq<Tagged>, cat: Category)
    ensures OfCategory([t] + all, cat) ==
            if t.cat == cat then [t.entry] + OfCategory(all, cat) else OfCategory(all, cat)
  {
    assert ([t] + all)[1..] == all;
  }

  lemma {:induction false} OfCategoryConcat(a: seq<Tagged>, b: seq<Tagged>, cat: Category)
    ensures OfCategory(a + b, cat) == OfCategory(a, cat) + OfCategory(b, cat)
  {
    if a == [] {
      assert a + b == b;
    } else {
      OfCategoryConcat(a[1..], b, cat);
      assert a + b == [a[0]] + (a[1..] + b) && a == [a[0]] + a[1..];
      OfCons(a[0], a[1..] + b, cat);
      OfCons(a[0], a[1..], cat);
      Regroup([a[0].entry], OfCategory(a[1..], cat), OfCategory(b, cat));
    }
  }

  lemma Regroup(a: seq<Lesson>, b: seq<Lesson>, c: seq<Lesson>)
    ensures (a + b) + c == a + (b + c)
  {
  }

  lemma {:induction false} OfTag(cat: Category, bucket: seq<Lesson>, c: Category)
    ensures OfCategory(Tag(cat, bucket), c) == if c == cat then bucket else []
  {
    if bucket != [] {
      OfTag(cat, bucket[1..], c);
      assert Tag(cat, bucket)[1..] == Tag(cat, bucket[1..]);
      assert bucket == [bucket[0]] + bucket[1..];
    }
  }

  lemma OfTagAll(buckets: Buckets, c: Category)
    ensures OfCategory(TagAll(buckets), c) == buckets.At(c)
  {
    var e, p, q := Tag(Environment, buckets.environment), Tag(Patterns, buckets.patterns),
                   Tag(Constraints, buckets.constraints);
    OfCategoryConcat(e + p, q, c);
    OfCategoryConcat(e, p, c);
    OfTag(Environment, buckets.environment, c);
    OfTag(Patterns, buckets.patterns, c);
    OfTag(Constraints, buckets.constraints, c);
  }

  lemma {:induction false} FilterInsert(t: Tagged, ys: seq<Tagged>, cat: Category)
    requires Sorted(ys, TagLast)
    ensures OfCategory(Insert(t, ys, TagLast), cat) ==
      if t.cat == cat then Insert(t.entry, OfCategory(ys, cat), Last) else OfCategory(ys, cat)
  {
    if ys == [] || TagLast(t) <= TagLast(ys[0]) {
      OfCons(t, ys, cat);
      FilteredFirst(t, ys, cat);
    } else {
      var rest := OfCategory(ys[1..], cat);
      FilterInsert(t, ys[1..], cat);
      OfCons(ys[0], Insert(t, ys[1..], TagLast), cat);
      assert ys == [ys[0]] + ys[1..];
      OfCons(ys[0], ys[1..], cat);
      InsertAfter(t.entry, ys[0].entry, rest);
    }
  }

  lemma InsertAfter(x: Lesson, y: Lesson, ys: seq<Lesson>)
    requires Last(x) > Last(y)
    ensures Insert(x, [y] + ys, Last) == [y] + Insert(x, ys, Last)
  {
    assert ([y] + ys)[1..] == ys;
  }

  lemma {:induction false} FilteredFirst(t: Tagged, ys: seq<Tagged>, cat: Category)
    requires forall y :: y in ys ==> TagLast(t) <= TagLast(y)
    ensures OfCategory(ys, cat) != [] ==> Last(t.entry) <= Last(OfCategory(ys, cat)[0])
  {
    if ys != [] {
      assert ys[0] in ys;
      FilteredFirst(t, ys[1..], cat);
    }
  }

  /** Sorting all entries together sorts each category by itself. */
  lemma {:induction false} FilterSort(all: seq<Tagged>, cat: Category)
    ensures OfCategory(SortAsc(all, TagLast), cat) == SortAsc(OfCategory(all, cat), Last)
  {
    if all != [] {
      FilterSort(all[1..], cat);
      SortAscSorts(all[1..], TagLast);
      FilterInsert(all[0], SortAsc(all[1..], TagLast), cat);
      assert all == [all[0]] + all[1..];
      OfCons(all[0], all[1..], cat);
      SortCons(all[0].entry, OfCategory(all[1..], cat));
    }
  }

  lemma SortCons(x: Lesson, ys: seq<Lesson>)
    ensures SortAsc([x] + ys, Last) == Insert(x, SortAsc(ys, Last), Last)
  {
    assert ([x] + ys)[1..] == ys;
  }

  /** A tail of the sorted list holds a tail of each sorted category. */
  lemma TailOfCategory(buckets: Buckets, cat: Category, n: nat) returns (m: nat)
    requires n <= |SortAsc(TagAll(buckets), TagLast)|
    ensures m <= |SortAsc(buckets.At(cat), Last)|
    ensures OfCategory(SortAsc(TagAll(buckets), TagLast)[n..], cat) == SortAsc(buckets.At(cat), Last)[m..]
  {
    var all := SortAsc(TagAll(buckets), TagLast);
    OfTagAll(buckets, cat);
    FilterSort(TagAll(buckets), cat);
    OfCategoryConcat(all[..n], all[n..], cat);
    assert all == all[..n] + all[n..];
    m := |OfCategory(all[..n], cat)|;
  }

  /** Each category keeps a most recent part of itself, and all of it when no byte is to be saved. */
  lemma ByteTrimmedBucket(lens: Lens, header: nat, buckets: Buckets, cat: Category) returns (m: nat)
    ensures m <= |SortAsc(buckets.At(cat), Last)|
    ensures ByteTrimmed(lens, header, buckets).At(cat) ==
      if header + CatalogBytes(lens, buckets) > MAX_FILE_BYTES then SortAsc(buckets.At(cat), Last)[m..]
      else buckets.At(cat)
  {
    var n := DropOldestFacts(lens, SortAsc(TagAll(buckets), TagLast));
    m := TailOfCategory(buckets, cat, n);
  }

  lemma ByteTrimmedFits(lens: Lens, header: nat, buckets: Buckets)
    ensures CatalogBytes(lens, ByteTrimmed(lens, header, buckets)) <= MAX_FILE_BYTES
  {
    var n := DropOldestFacts(lens, SortAsc(TagAll(buckets), TagLast));
  }

  lemma SortedParts(all: seq<Tagged>, n: nat)
    requires Sorted(all, TagLast) && n <= |all|
    ensures all[..n] + all[n..] == all
    ensures forall d, k :: d in all[..n] && k in all[n..] ==> TagLast(d) <= TagLast(k)
  {
    forall d, k | d in all[..n] && k in all[n..] ensures TagLast(d) <= TagLast(k) {
      var i :| 0 <= i < n && all[i] == d;
      var j :| n <= j < |all| && all[j] == k;
    }
  }

  /** The byte pass drops no entry newer than one it keeps, of whatever category. */
  lemma ByteTrimDropsOldest(lens: Lens, buckets: Buckets) returns (dropped: seq<Tagged>, kept: seq<Tagged>)
    ensures Permutation(dropped + kept, TagAll(buckets))
    ensures DropOldest(lens, SortAsc(TagAll(buckets), TagLast)) == kept
    ensures forall d, k :: d in dropped && k in kept ==> TagLast(d) <= TagLast(k)
  {
    var all := SortAsc(TagAll(buckets), TagLast);
    SortAscSorts(TagAll(buckets), TagLast);
    var n := DropOldestFacts(lens, all);
    dropped, kept := all[..n], all[n..];
    SortedParts(all, n);
  }

  // ---------- compaction ----------

  function DedupedBuckets(lens: Lens, buckets: Buckets): Buckets {
    PerCategory(Deduped(lens, buckets.environment), Deduped(lens, buckets.patterns), Deduped(lens, buckets.constraints))
  }

  function TrimmedBuckets(buckets: Buckets): Buckets {
    PerCategory(Trimmed(buckets.environment), Trimmed(buckets.patterns), Trimmed(buckets.constraints))
  }

  function MergedBuckets(lens: Lens, buckets: Buckets): Buckets {
    TrimmedBuckets(DedupedBuckets(lens, buckets))
  }

  function Compacted(lens: Lens, header: nat, buckets: Buckets): Buckets
  {
    ByteTrimmed(lens, header, MergedBuckets(lens, buckets))
  }

  /** After compaction every category is pairwise dissimilar with at most fifteen entries, and all fit. */
  lemma CompactedFacts(lens: Lens, header: nat, buckets: Buckets, cat: Category)
    ensures Apart(lens, Compacted(lens, header, buckets).At(cat))
    ensures |Compacted(lens, header, buckets).At(cat)| <= MAX_BULLETS
    ensures CatalogBytes(lens, Compacted(lens, header, buckets)) <= MAX_FILE_BYTES
  {
    var merged := MergedBuckets(lens, buckets);
    ByteTrimmedFits(lens, header, merged);
    var m := ByteTrimmedBucket(lens, header, merged, cat);
    DedupeFacts(lens, buckets.At(cat));
    TrimmedFacts(lens, Deduped(lens, buckets.At(cat)));
    assert merged.At(cat) == Trimmed(Deduped(lens, buckets.At(cat)));
    SortApart(lens, merged.At(cat), Last);
    SortAscSorts(merged.At(cat), Last);
    ApartSuffix(lens, SortAsc(merged.At(cat), Last), m);
  }

  lemma ApartSuffix(lens: Lens, bucket: seq<Lesson>, m: nat)
    requires m <= |bucket| && Apart(lens, bucket)
    ensures Apart(lens, bucket[m..])
  {
    forall i, j | 0 <= i < j < |bucket[m..]| ensures !Similar(lens, bucket[m..][i].text, bucket[m..][j].text) {
      assert bucket[m..][i] == bucket[m + i] && bucket[m..][j] == bucket[m + j];
    }
  }

  // ---------- candidates ----------

  datatype Candidate = Candidate(text: string, confidence: Confidence, evidenceList: seq<string>, evidenceCount: nat,
                                 firstObserved: real, lastObserved: real)

  type CandidateBuckets = PerCategory<Candidate>

  function CandidateTexts(bucket: seq<Candidate>): (ts: seq<string>)
    ensures |ts| == |bucket| && forall k :: 0 <= k < |ts| ==> ts[k] == bucket[k].text
  {
    seq(|bucket|, k requires 0 <= k < |bucket| => bucket[k].text)
  }

  function LastTen(list: seq<string>): seq<string> {
    if |list| > MAX_EVIDENCE then list[|list| - MAX_EVIDENCE..] else list
  }

  /** A repeated observation: new evidence is added, and repetition raises the confidence. */
  function Observed(c: Candidate, confidence: Confidence, evidence: string, now: real): Candidate {
    var list := if evidence != "" && evidence !in c.evidenceList then LastTen(c.evidenceList + [evidence])
                else c.evidenceList;
    Candidate(c.text,
              if |list| >= PROMOTION_THRESHOLD && confidence != Low then High else c.confidence,
              list, |list|, c.firstObserved, now)
  }

  function Fresh(text: string, confidence: Confidence, evidence: string, now: real): Candidate {
    var list := if evidence != "" then [evidence] else [];
    Candidate(text, confidence, list, |list|, now, now)
  }

  function Noted(lens: Lens, bucket: seq<Candidate>, text: string, confidence: Confidence, evidence: string, now: real)
    : seq<Candidate>
  {
    match FirstSimilar(lens, CandidateTexts(bucket), text)
    case None => bucket + [Fresh(text, confidence, evidence, now)]
    case Some(i) => bucket[i := Observed(bucket[i], confidence, evidence, now)]
  }

  /** An observation of `c` at `now`: ten pieces of evidence are kept, the newest. */
  ghost predicate Observes(c: Candidate, d: Candidate, confidence: Confidence, evidence: string, now: real) {
    d.text == c.text && d.firstObserved == c.firstObserved && d.lastObserved == now &&
    d.evidenceCount == |d.evidenceList| &&
    (if evidence == "" || evidence in c.evidenceList then d.evidenceList == c.evidenceList
     else if |c.evidenceList| < 10 then d.evidenceList == c.evidenceList + [evidence]
     else |d.evidenceList| == 10 && d.evidenceList <= c.evidenceList[|c.evidenceList| - 9..] + [evidence]) &&
    d.confidence == if |d.evidenceList| >= 2 && confidence != Low then High else c.confidence
  }

  /** The first similar candidate observes the recording, or a new one is added. */
  ghost predicate Notes(lens: Lens, before: seq<Candidate>, after: seq<Candidate>, text: string, confidence: Confidence,
                        evidence: string, now: real)
  {
    match FirstSimilar(lens, CandidateTexts(before), text)
    case Some(i) =>
      |after| == |before| && (forall k :: 0 <= k < |before| && k != i ==> after[k] == before[k]) &&
      Observes(before[i], after[i], confidence, evidence, now)
    case None =>
      |after| == |before| + 1 && before <= after && after[|before|].text == text &&
      var c := after[|before|];
      c.confidence == confidence && c.firstObserved == now == c.lastObserved &&
      c.evidenceList == (if evidence == "" then [] else [evidence]) && c.evidenceCount == |c.evidenceList|
  }

  lemma NotedNotes(lens: Lens, bucket: seq<Candidate>, text: string, confidence: Confidence, evidence: string,
                   now: real)
    ensures Notes(lens, bucket, Noted(lens, bucket, text, confidence, evidence, now), text, confidence, evidence, now)
  {
    match FirstSimilar(lens, CandidateTexts(bucket), text) {
      case None =>
      case Some(i) => ObservedObserves(bucket[i], confidence, evidence, now);
    }
  }

  lemma ObservedObserves(c: Candidate, confidence: Confidence, evidence: string, now: real)
    ensures Observes(c, Observed(c, confidence, evidence, now), confidence, evidence, now)
  {
    if evidence != "" && evidence !in c.evidenceList && |c.evidenceList| >= 10 {
      var n := |c.evidenceList|;
      assert (c.evidenceList + [evidence])[n + 1 - 10..] == c.evidenceList[n - 9..] + [evidence];
    }
  }

  /** What the second half of a recording does with the candidate it finds. */
  datatype Verdict = Keep | Drop(at: nat) | Promote(at: nat)

  function Judge(lens: Lens, bucket: seq<Candidate>, lessons: seq<Lesson>, text: string): (v: Verdict)
    ensures v.Drop? || v.Promote? ==> v.at < |bucket|
  {
    match FirstSimilar(lens, CandidateTexts(bucket), text)
    case None => Keep
    case Some(i) =>
      if FirstSimilar(lens, Texts(lessons), text).Some? then Drop(i)
      else if (bucket[i].evidenceCount >= PROMOTION_THRESHOLD || bucket[i].confidence == High)
              && FirstSimilar(lens, Texts(lessons), bucket[i].text).None? then Promote(i)
      else Keep
  }

  function Promoted(c: Candidate): Lesson {
    Lesson(c.text, c.firstObserved, c.lastObserved, c.evidenceCount, c.confidence)
  }

  function Remove<T>(s: seq<T>, i: nat): seq<T>
    requires i < |s|
  {
    s[..i] + s[i + 1..]
  }

  /** Evidence strings are distinct and nonempty, at most ten, and counted exactly. */
  ghost predicate SoundEvidence(c: Candidate) {
    c.evidenceCount == |c.evidenceList| <= MAX_EVIDENCE &&
    (forall i, j :: 0 <= i < j < |c.evidenceList| ==> c.evidenceList[i] != c.evidenceList[j]) &&
    forall i :: 0 <= i < |c.evidenceList| ==> c.evidenceList[i] != ""
  }

  ghost predicate SoundCandidates(lens: Lens, bucket: seq<Candidate>) {
    (forall i :: 0 <= i < |bucket| ==> SoundEvidence(bucket[i])) &&
    forall i, j :: 0 <= i < j < |bucket| ==> !Similar(lens, bucket[i].text, bucket[j].text)
  }

  lemma ObservedIsSound(c: Candidate, confidence: Confidence, evidence: string, now: real)
    requires SoundEvidence(c)
    ensures SoundEvidence(Observed(c, confidence, evidence, now))
  {
    if evidence != "" && evidence !in c.evidenceList {
      var list := c.evidenceList + [evidence];
      assert forall i :: 0 <= i < |c.evidenceList| ==> c.evidenceList[i] in c.evidenceList;
      assert forall i, j :: 0 <= i < j < |list| ==> list[i] != list[j];
    }
  }

  /** Recording keeps the candidates pairwise dissimilar with sound evidence. */
  lemma NotedIsSound(lens: Lens, bucket: seq<Candidate>, text: string, confidence: Confidence, evidence: string,
                     now: real)
    requires SoundCandidates(lens, bucket)
    ensures SoundCandidates(lens, Noted(lens, bucket, text, confidence, evidence, now))
  {
    match FirstSimilar(lens, CandidateTexts(bucket), text) {
      case None =>
      case Some(i) => ObservedIsSound(bucket[i], confidence, evidence, now);
    }
  }

  lemma RemoveIsSound(lens: Lens, bucket: seq<Candidate>, at: nat)
    requires SoundCandidates(lens, bucket) && at < |bucket|
    ensures SoundCandidates(lens, Remove(bucket, at))
  {
    var rest := Remove(bucket, at);
    assert forall i :: 0 <= i < |rest| ==> rest[i] == bucket[if i < at then i else i + 1];
    forall i, j | 0 <= i < j < |rest| ensures !Similar(lens, rest[i].text, rest[j].text) {
      var x, y := if i < at then i else i + 1, if j < at then j else j + 1;
      assert !Similar(lens, bucket[x].text, bucket[y].text);
    }
  }

  /** Only a candidate with two distinct pieces of evidence, or high confidence, is promoted; lessons stay apart. */
  lemma PromotionIsEarned(lens: Lens, bucket: seq<Candidate>, lessons: seq<Lesson>, text: string)
    requires SoundCandidates(lens, bucket) && Apart(lens, lessons) && Judge(lens, bucket, lessons, text).Promote?
    ensures var c := bucket[Judge(lens, bucket, lessons, text).at];
      Similar(lens, c.text, text) &&
      (c.confidence == High ||
       exists a, b :: a in c.evidenceList && b in c.evidenceList && a != b && a != "" && b != "") &&
      Apart(lens, lessons + [Promoted(c)])
  {
    var c := bucket[Judge(lens, bucket, lessons, text).at];
    if c.confidence != High {
      assert c.evidenceList[0] in c.evidenceList && c.evidenceList[1] in c.evidenceList;
    }
  }

  // ---------- validation ----------

  predicate IsBlank(c: char) {
    c == ' ' || c == '\t' || c == '\n' || c == '\r'
  }

  function StripLeft(s: string): string {
    if s != "" && IsBlank(s[0]) then StripLeft(s[1..]) else s
  }

  function StripRight(s: string): string {
    if s != "" && IsBlank(s[|s| - 1]) then StripRight(s[..|s| - 1]) else s
  }

  function Strip(s: string): string {
    StripRight(StripLeft(s))
  }

  function Lower(s: string): string {
    seq(|s|, i requires 0 <= i < |s| => if 'A' <= s[i] <= 'Z' then s[i] + 32 as char else s[i])
  }

  predicate ValidText(text: string) {
    var t := Strip(text);
    var lower := Lower(t);
    20 <= |t| <= 240 &&
    !("goal-" <= lower || "goal '" <= lower || "the last goal" <= lower || "my last goal" <= lower ||
      "this goal" <= lower)
  }

  function ParseCategory(s: string): Option<Category> {
    if s == "environment" then Some(Environment)
    else if s == "patterns" then Some(Patterns)
    else if s == "constraints" then Some(Constraints)
    else None
  }

  function ParseConfidence(s: string): Confidence {
    if s == "low" then Low else if s == "high" then High else Medium
  }

  // ---------- runs ----------

  /** The stored candidates and lessons, and the lock. */
  datatype Shelf = Shelf(candidates: CandidateBuckets, lessons: Buckets, locked: bool)

  datatype Step =
    | Record(category: string, text: string, confidence: string, evidence: string, now: real, header: nat)
    | CompactNow(size: nat)

  const EMPTY: Shelf := Shelf(PerCategory([], [], []), PerCategory([], [], []), false)

  /** The step is a recording that is not refused, in category `cat`. */
  predicate Records(step: Step, cat: Category) {
    step.Record? && ParseCategory(step.category) == Some(cat) && ValidText(step.text)
  }

  function NotedBy(lens: Lens, s: Shelf, step: Step, c: Category): seq<Candidate>
    requires step.Record?
  {
    Noted(lens, s.candidates.At(c), Strip(step.text), ParseConfidence(step.confidence), step.evidence, step.now)
  }

  /** A recording that nobody blocks, as written, or repaired so that it compacts under its own lock. */
  function RecordedIn(lens: Lens, s: Shelf, step: Step, c: Category, repaired: bool): Shelf
    requires step.Record?
  {
    var noted := NotedBy(lens, s, step, c);
    match Judge(lens, noted, s.lessons.At(c), Strip(step.text))
    case Keep => s.(candidates := s.candidates.With(c, noted))
    case Drop(at) => s.(candidates := s.candidates.With(c, Remove(noted, at)))
    case Promote(at) =>
      var more := s.lessons.With(c, s.lessons.At(c) + [Promoted(noted[at])]);
      if repaired then Shelf(s.candidates.With(c, Remove(noted, at)), Compacted(lens, step.header, more), s.locked)
      else Shelf(s.candidates.With(c, noted), more, true)
  }

  function Apply(lens: Lens, s: Shelf, step: Step, repaired: bool): Shelf {
    if s.locked then s
    else
      match step
      case Record(category, text, _, _, _, _) =>
        if ParseCategory(category).None? || !ValidText(text) then s
        else RecordedIn(lens, s, step, ParseCategory(category).value, repaired)
      case CompactNow(size) => s.(lessons := Compacted(lens, size, s.lessons))
  }

  function RunFrom(lens: Lens, s: Shelf, steps: seq<Step>, repaired: bool): Shelf {
    if steps == [] then s
    else Apply(lens, RunFrom(lens, s, steps[..|steps| - 1], repaired), steps[|steps| - 1], repaired)
  }

  function Run(lens: Lens, steps: seq<Step>, repaired: bool): Shelf {
    RunFrom(lens, EMPTY, steps, repaired)
  }

  /** How a call ends. `Blocked` is a call that waits for ever for a lock its own thread holds or never gave back. */
  datatype Outcome = Refused | Recorded(promoted: bool, reason: string) | Compacting | Blocked

  /** What a recording returns. */
  function Answer(lens: Lens, s: Shelf, step: Step, repaired: bool): Outcome
    requires step.Record?
  {
    if ParseCategory(step.category).None? || !ValidText(step.text) then Refused
    else if s.locked then Blocked
    else
      var c := ParseCategory(step.category).value;
      match Judge(lens, NotedBy(lens, s, step, c), s.lessons.At(c), Strip(step.text))
      case Keep => Recorded(false, "candidate added")
      case Drop(_) => Recorded(false, "already recorded in lessons")
      case Promote(_) => if repaired then Recorded(true, "promoted to lessons") else Blocked
  }

  /**
   * What a recording of `text` needs to be promoted, in terms of the store before the call: no lesson is similar, and
   * either it is a new candidate of high confidence that is similar to itself, or the first similar candidate
   * repeats no lesson and has high confidence or, with the new evidence, two pieces.
   */
  predicate Ripe(lens: Lens, bucket: seq<Candidate>, lessons: seq<Lesson>, text: string, confidence: Confidence,
                 evidence: string)
  {
    FirstSimilar(lens, Texts(lessons), text).None? &&
    match FirstSimilar(lens, CandidateTexts(bucket), text)
    case None => confidence == High && (lens.family(text).Some? || lens.words(text) != {})
    case Some(i) =>
      var c := bucket[i];
      FirstSimilar(lens, Texts(lessons), c.text).None? &&
      (c.confidence == High ||
       |c.evidenceList| + (if evidence != "" && evidence !in c.evidenceList then 1 else 0) >= PROMOTION_THRESHOLD)
  }

  lemma {:induction false} FirstSimilarSnoc(lens: Lens, texts: seq<string>, last: string, text: string)
    requires FirstSimilar(lens, texts, text).None?
    ensures FirstSimilar(lens, texts + [last], text) == if Similar(lens, last, text) then Some(|texts|) else None
  {
    var all := texts + [last];
    assert forall k :: 0 <= k < |texts| ==> all[k] == texts[k];
    assert all[|texts|] == last;
    var found := FirstSimilar(lens, all, text);
    assert found.Some? ==> found.value == |texts|;
  }

  /** Where the recorded text is found once it is noted: where it was found before, or at the end. */
  lemma FoundAfterNoting(lens: Lens, bucket: seq<Candidate>, text: string, confidence: Confidence, evidence: string,
                         now: real)
    ensures var before := FirstSimilar(lens, CandidateTexts(bucket), text);
      FirstSimilar(lens, CandidateTexts(Noted(lens, bucket, text, confidence, evidence, now)), text) ==
      if before.Some? then before else if Similar(lens, text, text) then Some(|bucket|) else None
  {
    var noted := Noted(lens, bucket, text, confidence, evidence, now);
    if FirstSimilar(lens, CandidateTexts(bucket), text).Some? {
      assert CandidateTexts(noted) == CandidateTexts(bucket);
    } else {
      FirstSimilarSnoc(lens, CandidateTexts(bucket), text, text);
      assert CandidateTexts(noted) == CandidateTexts(bucket) + [text];
    }
  }

  /** A recording that finds the lock free promotes exactly when its text is ripe. */
  lemma PromotesIffRipe(lens: Lens, s: Shelf, step: Step, c: Category)
    requires Records(step, c) && !s.locked
    ensures PromotedBy(lens, s, step).Some? <==>
            Ripe(lens, s.candidates.At(c), s.lessons.At(c), Strip(step.text), ParseConfidence(step.confidence),
                 step.evidence)
  {
    FoundAfterNoting(lens, s.candidates.At(c), Strip(step.text), ParseConfidence(step.confidence), step.evidence,
                     step.now);
    SimilarToItself(lens, Strip(step.text));
  }

  /**
   * As written a recording that is not refused blocks exactly when the lock is taken or its text is ripe, and leaves
   * the lock taken. Repaired it promotes exactly when the text is ripe and leaves the lock as it was.
   */
  lemma BlocksIffRipe(lens: Lens, s: Shelf, step: Step, c: Category)
    requires Records(step, c)
    ensures var ripe := Ripe(lens, s.candidates.At(c), s.lessons.At(c), Strip(step.text),
                             ParseConfidence(step.confidence), step.evidence);
      (Answer(lens, s, step, false) == Blocked <==> s.locked || ripe) &&
      (Apply(lens, s, step, false).locked <==> s.locked || ripe) &&
      (Answer(lens, s, step, true) == Recorded(true, "promoted to lessons") <==> !s.locked && ripe) &&
      (Apply(lens, s, step, true).locked <==> s.locked)
  {
    if !s.locked {
      PromotesIffRipe(lens, s, step, c);
    }
  }

  function LessonsIn(s: Shelf): nat {
    |s.lessons.environment| + |s.lessons.patterns| + |s.lessons.constraints|
  }

  lemma CompactedEmpty(lens: Lens, header: nat, buckets: Buckets, cat: Category)
    requires buckets.At(cat) == []
    ensures Compacted(lens, header, buckets).At(cat) == []
  {
    var merged := MergedBuckets(lens, buckets);
    var m := ByteTrimmedBucket(lens, header, merged, cat);
    assert merged.At(cat) == Trimmed(Deduped(lens, [])) == [];
  }

  /** As written, over every run from the empty store, the first lesson is also the last: it takes the lock for ever. */
  lemma {:induction false} OneLessonAtMost(lens: Lens, steps: seq<Step>)
    ensures var s := Run(lens, steps, false);
      LessonsIn(s) == (if s.locked then 1 else 0)
  {
    if steps != [] {
      OneLessonAtMost(lens, steps[..|steps| - 1]);
      var s, step := Run(lens, steps[..|steps| - 1], false), steps[|steps| - 1];
      if !s.locked && step.CompactNow? {
        CompactedEmpty(lens, step.size, s.lessons, Environment);
        CompactedEmpty(lens, step.size, s.lessons, Patterns);
        CompactedEmpty(lens, step.size, s.lessons, Constraints);
      }
    }
  }

  lemma {:induction false} LockedForEver(lens: Lens, s: Shelf, steps: seq<Step>)
    requires s.locked
    ensures RunFrom(lens, s, steps, false) == s
  {
    if steps != [] {
      LockedForEver(lens, s, steps[..|steps| - 1]);
    }
  }

  /** The first recording of a text that has a family or a content word blocks, if it claims high confidence. */
  lemma FirstHighRecordingBlocks(lens: Lens, category: string, text: string, evidence: string, now: real, header: nat)
    requires ParseCategory(category).Some? && ValidText(text)
    requires lens.family(Strip(text)).Some? || lens.words(Strip(text)) != {}
    ensures Answer(lens, EMPTY, Record(category, text, "high", evidence, now, header), false) == Blocked
  {
    SimilarToItself(lens, Strip(text));
  }

  lemma SomeTextIsValid() returns (text: string)
    ensures ValidText(text)
  {
    text := "xxxxxxxxxxxxxxxxxxxx";
    assert Strip(text) == text && Lower(text)[0] == 'x';
  }

  ghost predicate SoundShelf(lens: Lens, s: Shelf) {
    forall cat :: SoundCandidates(lens, s.candidates.At(cat)) && Apart(lens, s.lessons.At(cat))
  }

  lemma RecordingKeepsCandidates(lens: Lens, s: Shelf, step: Step, c: Category, repaired: bool)
    requires SoundCandidates(lens, s.candidates.At(c)) && step.Record?
    ensures SoundCandidates(lens, NotedBy(lens, s, step, c))
    ensures SoundCandidates(lens, RecordedIn(lens, s, step, c, repaired).candidates.At(c))
  {
    var noted := NotedBy(lens, s, step, c);
    NotedIsSound(lens, s.candidates.At(c), Strip(step.text), ParseConfidence(step.confidence), step.evidence, step.now);
    var verdict := Judge(lens, noted, s.lessons.At(c), Strip(step.text));
    if !verdict.Keep? {
      RemoveIsSound(lens, noted, verdict.at);
    }
  }

  lemma RecordingKeepsLessons(lens: Lens, s: Shelf, step: Step, c: Category, repaired: bool, cat: Category)
    requires SoundCandidates(lens, s.candidates.At(c)) && step.Record?
    requires Apart(lens, s.lessons.At(c)) && Apart(lens, s.lessons.At(cat))
    ensures Apart(lens, RecordedIn(lens, s, step, c, repaired).lessons.At(cat))
  {
    var noted := NotedBy(lens, s, step, c);
    RecordingKeepsCandidates(lens, s, step, c, repaired);
    var verdict := Judge(lens, noted, s.lessons.At(c), Strip(step.text));
    if verdict.Promote? {
      PromotionIsEarned(lens, noted, s.lessons.At(c), Strip(step.text));
      CompactedFacts(lens, step.header, s.lessons.With(c, s.lessons.At(c) + [Promoted(noted[verdict.at])]), cat);
    }
  }

  lemma RecordingKeepsSound(lens: Lens, s: Shelf, step: Step, c: Category, repaired: bool)
    requires SoundShelf(lens, s) && step.Record?
    ensures SoundShelf(lens, RecordedIn(lens, s, step, c, repaired))
  {
    var t := RecordedIn(lens, s, step, c, repaired);
    RecordingKeepsCandidates(lens, s, step, c, repaired);
    forall cat ensures SoundCandidates(lens, t.candidates.At(cat)) && Apart(lens, t.lessons.At(cat)) {
      RecordingKeepsLessons(lens, s, step, c, repaired, cat);
      assert cat != c ==> t.candidates.At(cat) == s.candidates.At(cat);
    }
  }

  /** Every call keeps the store sound, the one that ends blocked included. */
  lemma StepKeepsSound(lens: Lens, s: Shelf, step: Step, repaired: bool)
    requires SoundShelf(lens, s)
    ensures SoundShelf(lens, Apply(lens, s, step, repaired))
  {
    match step
    case Record(category, text, _, _, _, _) =>
      if !s.locked && ParseCategory(category).Some? && ValidText(text) {
        RecordingKeepsSound(lens, s, step, ParseCategory(category).value, repaired);
      }
    case CompactNow(size) =>
      forall cat ensures Apart(lens, Compacted(lens, size, s.lessons).At(cat)) {
        CompactedFacts(lens, size, s.lessons, cat);
      }
      assert forall cat :: SoundCandidates(lens, s.candidates.At(cat)) && Apart(lens, s.lessons.At(cat));
  }

  lemma StepKeepsSoundIf(lens: Lens, s: Shelf, step: Step, repaired: bool)
    ensures SoundShelf(lens, s) ==> SoundShelf(lens, Apply(lens, s, step, repaired))
  {
    if SoundShelf(lens, s) {
      StepKeepsSound(lens, s, step, repaired);
    }
  }

  /** Over every run candidates are dissimilar with distinct, counted evidence, and lessons are dissimilar. */
  lemma {:induction false} RunKeepsSound(lens: Lens, steps: seq<Step>, repaired: bool)
    ensures SoundShelf(lens, Run(lens, steps, repaired))
  {
    if steps != [] {
      RunKeepsSound(lens, steps[..|steps| - 1], repaired);
      StepKeepsSound(lens, Run(lens, steps[..|steps| - 1], repaired), steps[|steps| - 1], repaired);
    }
  }

  /** Recording what a lesson says already takes the first similar candidate out, the one just added included. */
  lemma KnownLeaves(lens: Lens, s: Shelf, step: Step, repaired: bool, cat: Category)
    requires Records(step, cat) && !s.locked
    requires exists l :: l in s.lessons.At(cat) && Similar(lens, l.text, Strip(step.text))
    ensures var noted, t := NotedBy(lens, s, step, cat), Apply(lens, s, step, repaired);
      var found := FirstSimilar(lens, CandidateTexts(noted), Strip(step.text));
      t.lessons == s.lessons && !t.locked &&
      t.candidates.At(cat) == if found.None? then noted else noted[..found.value] + noted[found.value + 1..]
  {
    IsKnown(lens, s.lessons.At(cat), Strip(step.text));
    KnownDrops(lens, NotedBy(lens, s, step, cat), s.lessons.At(cat), Strip(step.text));
  }

  lemma IsKnown(lens: Lens, lessons: seq<Lesson>, text: string)
    requires exists l :: l in lessons && Similar(lens, l.text, text)
    ensures FirstSimilar(lens, Texts(lessons), text).Some?
  {
    var l :| l in lessons && Similar(lens, l.text, text);
    var i :| 0 <= i < |lessons| && lessons[i] == l;
    assert Texts(lessons)[i] == l.text;
  }

  lemma KnownDrops(lens: Lens, bucket: seq<Candidate>, lessons: seq<Lesson>, text: string)
    requires FirstSimilar(lens, Texts(lessons), text).Some?
    ensures var found := FirstSimilar(lens, CandidateTexts(bucket), text);
      Judge(lens, bucket, lessons, text) == if found.None? then Keep else Drop(found.value)
  {
  }

  /** The candidate that a step turns into a lesson, if it does. */
  function PromotedBy(lens: Lens, s: Shelf, step: Step): Option<Candidate> {
    if !step.Record? || s.locked || ParseCategory(step.category).None? || !ValidText(step.text) then None
    else
      var c := ParseCategory(step.category).value;
      var noted := NotedBy(lens, s, step, c);
      match Judge(lens, noted, s.lessons.At(c), Strip(step.text))
      case Promote(at) => Some(noted[at])
      case _ => None
  }

  /** The step records this evidence in this category, for this text or one similar to it. */
  predicate Reports(lens: Lens, step: Step, cat: Category, text: string, evidence: string) {
    Records(step, cat) && step.evidence == evidence &&
    (Strip(step.text) == text || Similar(lens, text, Strip(step.text)))
  }

  ghost predicate Reported(lens: Lens, steps: seq<Step>, cat: Category, text: string, evidence: string) {
    exists j :: 0 <= j < |steps| && Reports(lens, steps[j], cat, text, evidence)
  }

  /** Somebody recorded this text in this category with high confidence. */
  ghost predicate DeclaredHigh(steps: seq<Step>, cat: Category, text: string) {
    exists j :: 0 <= j < |steps| && Records(steps[j], cat) && Strip(steps[j].text) == text &&
      ParseConfidence(steps[j].confidence) == High
  }

  /** This very text was recorded in the category at `time`. */
  ghost predicate RecordedAt(steps: seq<Step>, cat: Category, text: string, time: real) {
    exists j :: 0 <= j < |steps| && Records(steps[j], cat) && Strip(steps[j].text) == text && steps[j].now == time
  }

  /** It, or a similar text, was recorded in the category at `time`. */
  ghost predicate ObservedAt(lens: Lens, steps: seq<Step>, cat: Category, text: string, time: real) {
    exists j :: 0 <= j < |steps| && Records(steps[j], cat) && Reports(lens, steps[j], cat, text, steps[j].evidence) &&
      steps[j].now == time
  }

  /**
   * All evidence was reported for the text or a similar one, high confidence comes from two reports or from a
   * declaration, and the times are those of recordings.
   */
  ghost predicate Backed(lens: Lens, steps: seq<Step>, cat: Category, c: Candidate) {
    (c.confidence == High ==> |c.evidenceList| >= 2 || DeclaredHigh(steps, cat, c.text)) &&
    RecordedAt(steps, cat, c.text, c.firstObserved) && ObservedAt(lens, steps, cat, c.text, c.lastObserved) &&
    forall e :: e in c.evidenceList ==> Reported(lens, steps, cat, c.text, e)
  }

  ghost predicate AllBacked(lens: Lens, steps: seq<Step>, cat: Category, bucket: seq<Candidate>) {
    forall i :: 0 <= i < |bucket| ==> Backed(lens, steps, cat, bucket[i])
  }

  lemma BackedLater(lens: Lens, steps: seq<Step>, step: Step, cat: Category, c: Candidate)
    requires Backed(lens, steps, cat, c)
    ensures Backed(lens, steps + [step], cat, c)
  {
    var more := steps + [step];
    forall e | e in c.evidenceList ensures Reported(lens, more, cat, c.text, e) {
      assert Reported(lens, steps, cat, c.text, e);
      var j :| 0 <= j < |steps| && Reports(lens, steps[j], cat, c.text, e);
      assert more[j] == steps[j];
    }
    if DeclaredHigh(steps, cat, c.text) {
      var j :| 0 <= j < |steps| && Records(steps[j], cat) && Strip(steps[j].text) == c.text &&
        ParseConfidence(steps[j].confidence) == High;
      assert more[j] == steps[j];
    }
    TimesLater(lens, steps, step, cat, c);
  }

  lemma TimesLater(lens: Lens, steps: seq<Step>, step: Step, cat: Category, c: Candidate)
    requires RecordedAt(steps, cat, c.text, c.firstObserved) && ObservedAt(lens, steps, cat, c.text, c.lastObserved)
    ensures RecordedAt(steps + [step], cat, c.text, c.firstObserved)
    ensures ObservedAt(lens, steps + [step], cat, c.text, c.lastObserved)
  {
    var more := steps + [step];
    var i :| 0 <= i < |steps| && Records(steps[i], cat) && Strip(steps[i].text) == c.text &&
      steps[i].now == c.firstObserved;
    assert more[i] == steps[i];
    var j :| 0 <= j < |steps| && Records(steps[j], cat) &&
      Reports(lens, steps[j], cat, c.text, steps[j].evidence) && steps[j].now == c.lastObserved;
    assert more[j] == steps[j];
  }

  lemma ObservedIsBacked(lens: Lens, steps: seq<Step>, step: Step, cat: Category, c: Candidate)
    requires Backed(lens, steps, cat, c) && Records(step, cat) && Similar(lens, c.text, Strip(step.text))
    ensures Backed(lens, steps + [step], cat,
                   Observed(c, ParseConfidence(step.confidence), step.evidence, step.now))
  {
    var more := steps + [step];
    var d := Observed(c, ParseConfidence(step.confidence), step.evidence, step.now);
    BackedLater(lens, steps, step, cat, c);
    StepReports(lens, steps, step, cat, c.text);
    ObservedEvidence(c, ParseConfidence(step.confidence), step.evidence, step.now);
    forall e | e in d.evidenceList ensures Reported(lens, more, cat, d.text, e) {
      assert e in c.evidenceList || e == step.evidence;
    }
  }

  lemma ObservedEvidence(c: Candidate, confidence: Confidence, evidence: string, now: real)
    ensures forall e :: e in Observed(c, confidence, evidence, now).evidenceList ==>
      e in c.evidenceList || e == evidence
  {
  }

  /** The last of the steps reports its evidence for every text that it is similar to. */
  lemma StepReports(lens: Lens, steps: seq<Step>, step: Step, cat: Category, text: string)
    requires Records(step, cat) && Similar(lens, text, Strip(step.text))
    ensures Reported(lens, steps + [step], cat, text, step.evidence)
    ensures ObservedAt(lens, steps + [step], cat, text, step.now)
  {
    var more := steps + [step];
    assert more[|steps|] == step;
    assert Reports(lens, more[|steps|], cat, text, step.evidence);
  }

  lemma FreshIsBacked(lens: Lens, steps: seq<Step>, step: Step, cat: Category)
    requires Records(step, cat)
    ensures Backed(lens, steps + [step], cat,
                   Fresh(Strip(step.text), ParseConfidence(step.confidence), step.evidence, step.now))
  {
    var more := steps + [step];
    assert more[|steps|] == step;
    assert Reported(lens, more, cat, Strip(step.text), step.evidence);
    assert RecordedAt(more, cat, Strip(step.text), step.now);
    assert ObservedAt(lens, more, cat, Strip(step.text), step.now);
  }

  lemma NotedIsBacked(lens: Lens, steps: seq<Step>, s: Shelf, step: Step, cat: Category)
    requires AllBacked(lens, steps, cat, s.candidates.At(cat)) && Records(step, cat)
    ensures AllBacked(lens, steps + [step], cat, NotedBy(lens, s, step, cat))
  {
    var bucket, more, confidence := s.candidates.At(cat), steps + [step], ParseConfidence(step.confidence);
    AllBackedLater(lens, steps, step, cat, bucket);
    match FirstSimilar(lens, CandidateTexts(bucket), Strip(step.text)) {
      case None =>
        FreshIsBacked(lens, steps, step, cat);
        AddedIsBacked(lens, more, cat, bucket, Fresh(Strip(step.text), confidence, step.evidence, step.now));
      case Some(i) =>
        ObservedIsBacked(lens, steps, step, cat, bucket[i]);
        ReplacedIsBacked(lens, more, cat, bucket, i, Observed(bucket[i], confidence, step.evidence, step.now));
    }
  }

  lemma AddedIsBacked(lens: Lens, steps: seq<Step>, cat: Category, bucket: seq<Candidate>, c: Candidate)
    requires AllBacked(lens, steps, cat, bucket) && Backed(lens, steps, cat, c)
    ensures AllBacked(lens, steps, cat, bucket + [c])
  {
  }

  lemma ReplacedIsBacked(lens: Lens, steps: seq<Step>, cat: Category, bucket: seq<Candidate>, i: nat, c: Candidate)
    requires i < |bucket| && AllBacked(lens, steps, cat, bucket) && Backed(lens, steps, cat, c)
    ensures AllBacked(lens, steps, cat, bucket[i := c])
  {
  }

  lemma RemoveIsBacked(lens: Lens, steps: seq<Step>, cat: Category, bucket: seq<Candidate>, at: nat)
    requires AllBacked(lens, steps, cat, bucket) && at < |bucket|
    ensures AllBacked(lens, steps, cat, Remove(bucket, at))
  {
    var rest := Remove(bucket, at);
    forall i | 0 <= i < |rest| ensures Backed(lens, steps, cat, rest[i]) {
      assert rest[i] == bucket[if i < at then i else i + 1];
    }
  }

  lemma StepIsBacked(lens: Lens, steps: seq<Step>, s: Shelf, step: Step, repaired: bool, cat: Category)
    requires AllBacked(lens, steps, cat, s.candidates.At(cat))
    ensures AllBacked(lens, steps + [step], cat, Apply(lens, s, step, repaired).candidates.At(cat))
  {
    if !s.locked && Records(step, cat) {
      NotedIsBacked(lens, steps, s, step, cat);
      var noted := NotedBy(lens, s, step, cat);
      var verdict := Judge(lens, noted, s.lessons.At(cat), Strip(step.text));
      if !verdict.Keep? {
        RemoveIsBacked(lens, steps + [step], cat, noted, verdict.at);
      }
    } else {
      OthersUnchanged(lens, s, step, repaired, cat);
      AllBackedLater(lens, steps, step, cat, s.candidates.At(cat));
    }
  }

  lemma OthersUnchanged(lens: Lens, s: Shelf, step: Step, repaired: bool, cat: Category)
    requires s.locked || !Records(step, cat)
    ensures Apply(lens, s, step, repaired).candidates.At(cat) == s.candidates.At(cat)
  {
  }

  lemma AllBackedLater(lens: Lens, steps: seq<Step>, step: Step, cat: Category, bucket: seq<Candidate>)
    requires AllBacked(lens, steps, cat, bucket)
    ensures AllBacked(lens, steps + [step], cat, bucket)
  {
    forall i | 0 <= i < |bucket| ensures Backed(lens, steps + [step], cat, bucket[i]) {
      BackedLater(lens, steps, step, cat, bucket[i]);
    }
  }

  lemma {:induction false} RunIsBacked(lens: Lens, steps: seq<Step>, repaired: bool, cat: Category)
    ensures AllBacked(lens, steps, cat, Run(lens, steps, repaired).candidates.At(cat))
  {
    if steps != [] {
      var before, step := steps[..|steps| - 1], steps[|steps| - 1];
      var s := Run(lens, before, repaired);
      RunIsBacked(lens, before, repaired, cat);
      StepIsBacked(lens, before, s, step, repaired, cat);
      assert steps == before + [step];
      assert Run(lens, steps, repaired) == Apply(lens, s, step, repaired);
    }
  }

  /**
   * Two recordings in the category of this text or similar ones, with different evidence, or one of this very text
   * with high confidence.
   */
  ghost predicate Earned(lens: Lens, steps: seq<Step>, cat: Category, text: string) {
    DeclaredHigh(steps, cat, text) ||
    exists a, b :: a != b && a != "" && b != "" && Reported(lens, steps, cat, text, a) &&
      Reported(lens, steps, cat, text, b)
  }

  /** Over every run, whatever becomes a lesson was earned by recordings made up to then, and joins the others apart. */
  lemma PromotionsAreEarned(lens: Lens, steps: seq<Step>, step: Step, repaired: bool)
    requires PromotedBy(lens, Run(lens, steps, repaired), step).Some?
    ensures var c := PromotedBy(lens, Run(lens, steps, repaired), step).value;
      var cat := ParseCategory(step.category).value;
      Similar(lens, c.text, Strip(step.text)) && Earned(lens, steps + [step], cat, c.text) &&
      Apart(lens, Run(lens, steps, repaired).lessons.At(cat) + [Promoted(c)])
  {
    var s, cat := Run(lens, steps, repaired), ParseCategory(step.category).value;
    RunKeepsSound(lens, steps, repaired);
    assert SoundCandidates(lens, s.candidates.At(cat)) && Apart(lens, s.lessons.At(cat));
    NotedIsSound(lens, s.candidates.At(cat), Strip(step.text), ParseConfidence(step.confidence), step.evidence,
                 step.now);
    var noted := NotedBy(lens, s, step, cat);
    PromotionIsEarned(lens, noted, s.lessons.At(cat), Strip(step.text));
    RunIsBacked(lens, steps, repaired, cat);
    NotedIsBacked(lens, steps, s, step, cat);
    var c := noted[Judge(lens, noted, s.lessons.At(cat), Strip(step.text)).at];
    assert Backed(lens, steps + [step], cat, c) && SoundEvidence(c);
    if |c.evidenceList| >= 2 {
      var a, b := c.evidenceList[0], c.evidenceList[1];
      assert a in c.evidenceList && b in c.evidenceList && a != b;
    }
  }

  lemma RemoveTakesOne<T>(list: seq<T>, at: nat)
    requires at < |list|
    ensures multiset(Remove(list, at)) == multiset(list) - multiset{list[at]}
  {
    assert list == (list[..at] + [list[at]]) + list[at + 1..];
  }

  /** The candidate that a recording promotes is the one it has just observed. */
  lemma PromotedIsObserved(lens: Lens, s: Shelf, step: Step, cat: Category)
    requires Records(step, cat) && PromotedBy(lens, s, step).Some?
    ensures var c := PromotedBy(lens, s, step).value;
      c.lastObserved == step.now && c.evidenceCount == |c.evidenceList|
  {
    FoundIsObserved(lens, s.candidates.At(cat), Strip(step.text), ParseConfidence(step.confidence), step.evidence,
                    step.now);
  }

  lemma FoundIsObserved(lens: Lens, bucket: seq<Candidate>, text: string, confidence: Confidence, evidence: string,
                        now: real)
    ensures var noted := Noted(lens, bucket, text, confidence, evidence, now);
      var found := FirstSimilar(lens, CandidateTexts(noted), text);
      found.Some? ==>
        noted[found.value].lastObserved == now &&
        noted[found.value].evidenceCount == |noted[found.value].evidenceList|
  {
    FoundAfterNoting(lens, bucket, text, confidence, evidence, now);
  }

  /**
   * Over every run, what a promotion stores: the text of the candidate, the time when it was first recorded, the time
   * of this recording, and the number of its pieces of evidence. As written the candidate stays; repaired it leaves.
   */
  lemma PromotionStores(lens: Lens, steps: seq<Step>, step: Step, repaired: bool, cat: Category) returns (l: Lesson)
    requires Records(step, cat) && PromotedBy(lens, Run(lens, steps, repaired), step).Some?
    ensures var s := Run(lens, steps, repaired);
      var c, t := PromotedBy(lens, s, step).value, Apply(lens, s, step, repaired);
      l.text == c.text && RecordedAt(steps + [step], cat, l.text, l.firstObserved) && l.lastObserved == step.now &&
      l.evidenceCount == |c.evidenceList| && l.confidence == c.confidence &&
      if repaired
      then t.lessons == Compacted(lens, step.header, s.lessons.With(cat, s.lessons.At(cat) + [l])) &&
           multiset(t.candidates.At(cat)) == multiset(NotedBy(lens, s, step, cat)) - multiset{c}
      else t.lessons == s.lessons.With(cat, s.lessons.At(cat) + [l]) &&
           t.candidates.At(cat) == NotedBy(lens, s, step, cat)
  {
    var s := Run(lens, steps, repaired);
    var noted := NotedBy(lens, s, step, cat);
    var at := Judge(lens, noted, s.lessons.At(cat), Strip(step.text)).at;
    l := Promoted(noted[at]);
    PromotedIsObserved(lens, s, step, cat);
    RemoveTakesOne(noted, at);
    RunIsBacked(lens, steps, repaired, cat);
    NotedIsBacked(lens, steps, s, step, cat);
    assert Backed(lens, steps + [step], cat, noted[at]);
  }

  // ---------- the store ----------

  lemma CategoryOrder()
    ensures |CATEGORIES| == 3
    ensures CATEGORIES[0] == Environment && CATEGORIES[1] == Patterns && CATEGORIES[2] == Constraints
  {
  }

  /** A pass has brought the first `i` categories to `after`. */
  ghost predicate PassedTo<T>(i: nat, r: PerCategory<T>, before: PerCategory<T>, after: PerCategory<T>) {
    r == PerCategory(if i > 0 then after.environment else before.environment,
                     if i > 1 then after.patterns else before.patterns,
                     if i > 2 then after.constraints else before.constraints)
  }

  lemma PassStep<T>(i: nat, r: PerCategory<T>, before: PerCategory<T>, after: PerCategory<T>)
    requires i < |CATEGORIES| && PassedTo(i, r, before, after)
    ensures r.At(CATEGORIES[i]) == before.At(CATEGORIES[i])
    ensures PassedTo(i + 1, r.With(CATEGORIES[i], after.At(CATEGORIES[i])), before, after)
  {
    CategoryOrder();
  }

  lemma AllPassed<T>(r: PerCategory<T>, before: PerCategory<T>, after: PerCategory<T>)
    requires PassedTo(|CATEGORIES|, r, before, after)
    ensures r == after
  {
    CategoryOrder();
  }

  class LessonsStore {
    const lens: Lens
    var candidates: CandidateBuckets
    var lessons: Buckets
    /** The agent's lock, which is not reentrant. */
    var locked: bool

    constructor (lens: Lens)
      ensures this.lens == lens && View() == EMPTY && Valid()
    {
      this.lens, candidates, lessons, locked := lens, PerCategory([], [], []), PerCategory([], [], []), false;
    }

    function View(): Shelf
      reads this
    {
      Shelf(candidates, lessons, locked)
    }

    /** Candidates and lessons are pairwise dissimilar, and evidence is distinct and counted. */
    ghost predicate Valid()
      reads this
    {
      SoundShelf(lens, View())
    }

    static method FindSimilar(lens: Lens, texts: seq<string>, text: string) returns (idx: Option<nat>)
      ensures idx == FirstSimilar(lens, texts, text)
    {
      for i := 0 to |texts|
        invariant forall j :: 0 <= j < i ==> !Similar(lens, texts[j], text)
      {
        if Similar(lens, texts[i], text) {
          return Some(i);
        }
      }
      return None;
    }

    static method DedupeBucket(lens: Lens, bucket: seq<Lesson>) returns (deduped: seq<Lesson>)
      ensures deduped == Deduped(lens, bucket)
    {
      var sorted := SortDesc(bucket, Last);
      deduped := [];
      for i := 0 to |sorted|
        invariant deduped == MergeAll(lens, sorted[..i])
      {
        MergeAllSnoc(lens, sorted, i);
        deduped := MergeInto(lens, deduped, sorted[i]);
      }
      assert sorted[..|sorted|] == sorted;
    }

    /** The evidence of an entry goes to the first similar one, if there is one. */
    static method MergeInto(lens: Lens, kept: seq<Lesson>, e: Lesson) returns (merged: seq<Lesson>)
      ensures merged == Merge(lens, kept, e)
    {
      var idx := FindSimilar(lens, Texts(kept), e.text);
      if idx.None? {
        merged := kept + [e];
      } else {
        var existing := kept[idx.value];
        merged := kept[idx.value := existing.(evidenceCount := existing.evidenceCount + e.evidenceCount)];
      }
    }

    static method TrimBytes(lens: Lens, header: nat, buckets: Buckets) returns (r: Buckets)
      ensures r == ByteTrimmed(lens, header, buckets)
    {
      if header + CatalogBytes(lens, buckets) <= MAX_FILE_BYTES {
        return buckets;
      }
      var entries := SortAsc(TagAll(buckets), TagLast);
      ghost var all := entries;
      while entries != [] && CatalogBytes(lens, Gather(entries)) > MAX_FILE_BYTES
        invariant DropOldest(lens, entries) == DropOldest(lens, all)
        decreases |entries|
      {
        entries := entries[1..];
      }
      r := Gather(entries);
    }

    static method DedupePass(lens: Lens, buckets: Buckets) returns (result: Buckets)
      ensures result == DedupedBuckets(lens, buckets)
    {
      result := buckets;
      ghost var goal := DedupedBuckets(lens, buckets);
      for i := 0 to |CATEGORIES|
        invariant PassedTo(i, result, buckets, goal)
      {
        PassStep(i, result, buckets, goal);
        var deduped := DedupeBucket(lens, result.At(CATEGORIES[i]));
        result := result.With(CATEGORIES[i], deduped);
      }
      AllPassed(result, buckets, goal);
    }

    static method TrimPass(buckets: Buckets) returns (result: Buckets)
      ensures result == TrimmedBuckets(buckets)
    {
      result := buckets;
      ghost var goal := TrimmedBuckets(buckets);
      for i := 0 to |CATEGORIES|
        invariant PassedTo(i, result, buckets, goal)
      {
        PassStep(i, result, buckets, goal);
        result := result.With(CATEGORIES[i], Trimmed(result.At(CATEGORIES[i])));
      }
      AllPassed(result, buckets, goal);
    }

    /** The three passes, run by a caller that holds the lock. */
    method CompactBody(header: nat)
      modifies this`lessons
      ensures lessons == Compacted(lens, header, old(lessons))
    {
      var deduped := DedupePass(lens, lessons);
      var trimmed := TrimPass(deduped);
      lessons := TrimBytes(lens, header, trimmed);
    }

    /** Compaction takes the lock itself, so it never returns to a caller that holds it. */
    method Compact(header: nat) returns (outcome: Outcome)
      modifies this`lessons
      ensures locked ==> outcome == Blocked && lessons == old(lessons)
      ensures !locked ==> outcome == Compacting && lessons == Compacted(lens, header, old(lessons))
      ensures View() == Apply(lens, old(View()), CompactNow(header), false)
      ensures old(Valid()) ==> Valid()
    {
      StepKeepsSoundIf(lens, View(), CompactNow(header), false);
      if locked {
        return Blocked;
      }
      CompactBody(header);
      outcome := Compacting;
    }

    /** Recording as written: the promotion calls `Compact` while this call holds the lock. */
    method RecordCandidate(category: string, text: string, confidence: string, evidence: string, now: real, header: nat)
      returns (outcome: Outcome)
      modifies this
      ensures outcome == Answer(lens, old(View()), Record(category, text, confidence, evidence, now, header), false)
      ensures View() == Apply(lens, old(View()), Record(category, text, confidence, evidence, now, header), false)
      ensures old(Valid()) ==> Valid()
    {
      StepKeepsSoundIf(lens, View(), Record(category, text, confidence, evidence, now, header), false);
      if ParseCategory(category).None? || !ValidText(text) {
        return Refused;
      }
      if locked {
        return Blocked;
      }
      locked := true;
      var c := ParseCategory(category).value;
      var verdict := Note(c, Strip(text), ParseConfidence(confidence), evidence, now);
      match verdict {
        case Keep =>
          outcome := Recorded(false, "candidate added");
        case Drop(at) =>
          candidates := candidates.With(c, Remove(candidates.At(c), at));
          outcome := Recorded(false, "already recorded in lessons");
        case Promote(at) =>
          lessons := lessons.With(c, lessons.At(c) + [Promoted(candidates.At(c)[at])]);
          outcome := Compact(header);
          return;
      }
      locked := false;
    }

    /** The first half of a recording: note the observation, then judge the candidate it belongs to. */
    method Note(c: Category, text: string, confidence: Confidence, evidence: string, now: real)
      returns (verdict: Verdict)
      modifies this`candidates
      ensures candidates == old(candidates).With(c, Noted(lens, old(candidates).At(c), text, confidence, evidence, now))
      ensures verdict == Judge(lens, candidates.At(c), lessons.At(c), text)
    {
      var bucket := candidates.At(c);
      var idx := FindSimilar(lens, CandidateTexts(bucket), text);
      if idx.Some? {
        bucket := bucket[idx.value := Observed(bucket[idx.value], confidence, evidence, now)];
      } else {
        bucket := bucket + [Fresh(text, confidence, evidence, now)];
      }
      candidates := candidates.With(c, bucket);
      idx := FindSimilar(lens, CandidateTexts(bucket), text);
      if idx.None? {
        return Keep;
      }
      var known := FindSimilar(lens, Texts(lessons.At(c)), text);
      if known.Some? {
        return Drop(idx.value);
      }
      var entry := bucket[idx.value];
      if entry.evidenceCount >= PROMOTION_THRESHOLD || entry.confidence == High {
        var present := FindSimilar(lens, Texts(lessons.At(c)), entry.text);
        return if present.Some? then Keep else Promote(idx.value);
      }
      return Keep;
    }

    /** Recording repaired: the compaction runs under the lock that the recording already holds. */
    method RecordCandidateRepaired(category: string, text: string, confidence: string, evidence: string, now: real,
                                   header: nat) returns (outcome: Outcome)
      requires !locked
      modifies this
      ensures !locked && outcome != Blocked
      ensures outcome == Answer(lens, old(View()), Record(category, text, confidence, evidence, now, header), true)
      ensures View() == Apply(lens, old(View()), Record(category, text, confidence, evidence, now, header), true)
      ensures old(Valid()) ==> Valid()
    {
      StepKeepsSoundIf(lens, View(), Record(category, text, confidence, evidence, now, header), true);
      if ParseCategory(category).None? || !ValidText(text) {
        return Refused;
      }
      locked := true;
      var c := ParseCategory(category).value;
      var verdict := Note(c, Strip(text), ParseConfidence(confidence), evidence, now);
      match verdict {
        case Keep =>
          outcome := Recorded(false, "candidate added");
        case Drop(at) =>
          candidates := candidates.With(c, Remove(candidates.At(c), at));
          outcome := Recorded(false, "already recorded in lessons");
        case Promote(at) =>
          lessons := lessons.With(c, lessons.At(c) + [Promoted(candidates.At(c)[at])]);
          CompactBody(header);
          candidates := candidates.With(c, Remove(candidates.At(c), at));
          outcome := Recorded(true, "promoted to lessons");
      }
      locked := false;
    }
  }
}
