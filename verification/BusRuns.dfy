/** Runs of the message bus: what every agent is given, in which order, and what sharing and reloading change. */
module BusRuns {
  import opened Wrappers
  import opened Sequences
  import opened Bus

  /**
   * The bus with its history since it was loaded: what each agent is owed, what it was given, what expired, and
   * what had been read before.
   */
  datatype Trace = Trace(s: State, sent: map<Id, seq<Message>>, got: map<Id, seq<Message>>, dropped: set<Message>,
                         past: set<Message>, clock: real)

  /** A reload replaces each queued object by a copy of its own, queue by queue. */
  datatype Step =
    | Send(to: Id, m: Message)
    | Deliver(to: Id, m: Message)
    | Receive(agent: Id, limit: int)
    | Tick(now: real)
    | Reload(copies: map<Id, map<Message, Message>>)

  function Log(log: map<Id, seq<Message>>, a: Id): seq<Message> {
    if a in log then log[a] else []
  }

  function CopiesFor(copies: map<Id, map<Message, Message>>, a: Id): map<Message, Message> {
    if a in copies then copies[a] else map[]
  }

  function CopyOf(f: map<Message, Message>, m: Message): Message {
    if m in f then f[m] else m
  }

  function Renamed(f: map<Message, Message>, q: seq<Message>): (r: seq<Message>)
    ensures |r| == |q| && forall i :: 0 <= i < |q| ==> r[i] == CopyOf(f, q[i])
  {
    if q == [] then [] else [CopyOf(f, q[0])] + Renamed(f, q[1..])
  }

  ghost function Images(copies: map<Id, map<Message, Message>>, keep: set<Message>): set<Message> {
    set a, m | a in copies && m in copies[a] && m in keep :: copies[a][m]
  }

  ghost function SentTo(t: Trace, to: Id, m: Message): map<Id, seq<Message>> {
    if to == "broadcast"
    then map a | a in t.s.queues.Keys + t.sent.Keys :: Log(t.sent, a) + if a in t.s.queues then [m] else []
    else t.sent[to := Log(t.sent, to) + [m]]
  }

  ghost function Reloaded(t: Trace, copies: map<Id, map<Message, Message>>): Trace {
    Trace(State(map a | a in t.s.queues :: Renamed(CopiesFor(copies, a), t.s.queues[a]),
                t.s.read + Images(copies, t.s.read)),
          map a | a in t.sent :: Renamed(CopiesFor(copies, a), t.sent[a]),
          map a | a in t.got :: Renamed(CopiesFor(copies, a), t.got[a]),
          t.dropped, t.past + Images(copies, t.past), t.clock)
  }

  ghost function Apply(t: Trace, step: Step): Trace {
    match step
    case Send(to, m) => t.(s := Sent(t.s, to, m), sent := SentTo(t, to, m))
    case Deliver(to, m) => t.(s := Delivered(t.s, to, m), sent := t.sent[to := Log(t.sent, to) + [m]])
    case Receive(a, limit) =>
      var q := Pruned(Queue(t.s, a), t.clock);
      t.(s := Received(t.s, a, true, limit, t.clock),
         got := t.got[a := Log(t.got, a) + Pick(q, t.s.read, true, limit)],
         dropped := t.dropped + (Members(Queue(t.s, a)) - Members(q)))
    case Tick(now) => if now < t.clock then t else t.(clock := now)
    case Reload(copies) => Reloaded(t, copies)
  }

  ghost predicate Fresh(t: Trace, m: Message) {
    m !in t.s.read && m !in t.dropped && m !in t.past &&
    forall a :: m !in Log(t.sent, a) && m !in Log(t.got, a) && m !in Queue(t.s, a)
  }

  /** New objects, one for each place in a queue, with the same contents. */
  ghost predicate CopiesOf(t: Trace, copies: map<Id, map<Message, Message>>) {
    copies.Keys == t.s.queues.Keys &&
    (forall a :: a in copies ==> copies[a].Keys == Members(t.s.queues[a])) &&
    (forall a, m :: a in copies && m in copies[a] ==> Fresh(t, copies[a][m]) && copies[a][m].body == m.body) &&
    forall a, b, m, n ::
      a in copies && b in copies && m in copies[a] && n in copies[b] && (a, m) != (b, n) ==>
        copies[a][m] != copies[b][n]
  }

  /** Every message sent is a new object, and so is every copy that a reload makes. */
  ghost predicate Possible(t: Trace, step: Step) {
    match step
    case Send(_, m) => Fresh(t, m)
    case Deliver(_, m) => Fresh(t, m)
    case Reload(copies) => CopiesOf(t, copies)
    case _ => true
  }

  ghost predicate BroadcastFree(step: Step) {
    step.Send? ==> step.to != "broadcast"
  }

  ghost function Run(start: Trace, steps: seq<Step>): Trace {
    if steps == [] then start else Apply(Run(start, steps[..|steps| - 1]), steps[|steps| - 1])
  }

  ghost predicate PossibleRun(start: Trace, steps: seq<Step>) {
    steps == [] ||
    (PossibleRun(start, steps[..|steps| - 1]) && Possible(Run(start, steps[..|steps| - 1]), steps[|steps| - 1]))
  }

  /** A bus as it is loaded: every agent is owed the unread messages of its queue. */
  ghost function JustLoaded(s: State, clock: real): Trace {
    Trace(s, map a | a in s.queues :: Minus(s.queues[a], s.read), map[], {}, s.read, clock)
  }

  // ---------- in order, at most once, and nothing lost ----------

  /** The elements of `q` that are in `keep`, in order. */
  ghost function Only(q: seq<Message>, keep: set<Message>): seq<Message> {
    if q == [] then [] else (if q[0] in keep then [q[0]] else []) + Only(q[1..], keep)
  }

  ghost function Minus(q: seq<Message>, gone: set<Message>): seq<Message> {
    if q == [] then [] else (if q[0] in gone then [] else [q[0]]) + Minus(q[1..], gone)
  }

  /** Whatever was sent before a read message is read, or expired unread. */
  ghost predicate ReadInOrder(sent: seq<Message>, read: set<Message>, dropped: set<Message>) {
    sent == [] ||
    ((sent[0] in read || sent[0] in dropped || forall m :: m in sent[1..] ==> m !in read) &&
     ReadInOrder(sent[1..], read, dropped))
  }

  lemma {:induction false} OnlyMembers(q: seq<Message>, keep: set<Message>)
    ensures forall m :: m in Only(q, keep) <==> m in q && m in keep
  {
    if q != [] {
      OnlyMembers(q[1..], keep);
      assert q == [q[0]] + q[1..];
    }
  }

  lemma {:induction false} OnlyNothing(q: seq<Message>, keep: set<Message>)
    requires forall m :: m in q ==> m !in keep
    ensures Only(q, keep) == []
  {
    if q != [] {
      assert q[0] in q;
      OnlyNothing(q[1..], keep);
    }
  }

  lemma {:induction false} NothingReadInOrder(q: seq<Message>, read: set<Message>, dropped: set<Message>)
    requires forall m :: m in q ==> m !in read
    ensures ReadInOrder(q, read, dropped)
  {
    if q != [] {
      NothingReadInOrder(q[1..], read, dropped);
    }
  }

  /** Taking the first unread messages extends what was given, in the order it was sent. */
  lemma {:induction false} PickExtends(sent: seq<Message>, read: set<Message>, dropped: set<Message>, limit: int)
    requires Distinct(sent) && ReadInOrder(sent, read, dropped)
    ensures Extends(sent, read, dropped, Pick(Minus(sent, dropped), read, true, limit))
    decreases |sent|, 0
  {
    if sent != [] {
      var x, rest := sent[0], sent[1..];
      assert sent == [x] + rest;
      var q := Minus(rest, dropped);
      assert ([x] + q)[0] == x && ([x] + q)[1..] == q;
      if x in dropped || x in read {
        assert Minus(sent, dropped) == if x in dropped then q else [x] + q;
        TailDistinct(sent);
        PickExtends(rest, read, dropped, limit);
        PickMembers(q, read, true, limit);
        MinusMembers(rest, dropped);
        ExtendsPast(x, rest, read, dropped, Pick(q, read, true, limit));
      } else {
        PickNew(x, rest, read, dropped, limit);
      }
    }
  }

  ghost predicate Extends(sent: seq<Message>, read: set<Message>, dropped: set<Message>, picked: seq<Message>) {
    Only(sent, read + Members(picked)) == Only(sent, read) + picked &&
    ReadInOrder(sent, read + Members(picked), dropped)
  }

  lemma ExtendsPast(x: Message, rest: seq<Message>, read: set<Message>, dropped: set<Message>, picked: seq<Message>)
    requires x in dropped || x in read
    requires x !in picked && Extends(rest, read, dropped, picked)
    ensures Extends([x] + rest, read, dropped, picked)
  {
    assert ([x] + rest)[1..] == rest;
  }

  lemma TailDistinct(q: seq<Message>)
    requires q != [] && Distinct(q)
    ensures Distinct(q[1..]) && q[0] !in q[1..]
  {
    forall i, j | 0 <= i < j < |q| - 1 ensures q[1..][i] != q[1..][j] {
      assert q[i + 1] != q[j + 1];
    }
    forall i | 0 <= i < |q| - 1 ensures q[1..][i] != q[0] {
      assert q[0] != q[i + 1];
    }
  }

  lemma {:induction false} MinusMembers(q: seq<Message>, gone: set<Message>)
    ensures forall m :: m in Minus(q, gone) <==> m in q && m !in gone
  {
    if q != [] {
      MinusMembers(q[1..], gone);
      assert q == [q[0]] + q[1..];
    }
  }

  lemma {:induction false} PickNew(x: Message, rest: seq<Message>, read: set<Message>, dropped: set<Message>,
                                   limit: int)
    requires Distinct([x] + rest) && ReadInOrder([x] + rest, read, dropped)
    requires x !in read && x !in dropped
    ensures Extends([x] + rest, read, dropped,
                    [x] + if limit <= 1 then [] else Pick(Minus(rest, dropped), read + {x}, true, limit - 1))
    decreases |rest|, 1
  {
    TailDistinct([x] + rest);
    var sent := [x] + rest;
    assert sent[0] == x && sent[1..] == rest;
    OnlyNothing(rest, read);
    assert Only(sent, read) == [];
    OnlyNothing(rest, read + {x});
    NothingReadInOrder(rest, read + {x}, dropped);
    if limit > 1 {
      PickExtends(rest, read + {x}, dropped, limit - 1);
      var more := Pick(Minus(rest, dropped), read + {x}, true, limit - 1);
      assert read + {x} + Members(more) == read + Members([x] + more);
      assert Only(rest, read + {x} + Members(more)) == more;
    } else {
      assert [x] + [] == [x] && read + {x} == read + Members([x]);
      assert Only(sent, read + {x}) == [x];
    }
  }

  /** Only what is in the queue matters. */
  lemma {:induction false} SameOnQueue(q: seq<Message>, r1: set<Message>, r2: set<Message>, d1: set<Message>,
                                       d2: set<Message>)
    requires forall m :: m in q ==> (m in r1 <==> m in r2) && (m in d1 <==> m in d2)
    ensures Only(q, r1) == Only(q, r2) && Minus(q, d1) == Minus(q, d2)
    ensures ReadInOrder(q, r1, d1) == ReadInOrder(q, r2, d2)
  {
    if q != [] {
      assert q[0] in q;
      SameOnQueue(q[1..], r1, r2, d1, d2);
    }
  }

  lemma {:induction false} AppendNew(q: seq<Message>, m: Message, read: set<Message>, dropped: set<Message>)
    requires m !in read && m !in dropped && ReadInOrder(q, read, dropped)
    ensures Only(q + [m], read) == Only(q, read)
    ensures Minus(q + [m], dropped) == Minus(q, dropped) + [m]
    ensures ReadInOrder(q + [m], read, dropped)
  {
    if q != [] {
      assert (q + [m])[1..] == q[1..] + [m];
      AppendNew(q[1..], m, read, dropped);
    }
  }

  /** Pruning takes out the expired messages and leaves the order of the rest. */
  lemma {:induction false} PrunedIsMinus(sent: seq<Message>, read: set<Message>, dropped: set<Message>,
                                         dead: set<Message>, now: real)
    requires forall m :: m in sent && m !in dropped ==> (m in dead <==> !Live(m, now))
    requires ReadInOrder(sent, read, dropped)
    ensures Pruned(Minus(sent, dropped), now) == Minus(sent, dropped + dead)
    ensures ReadInOrder(sent, read, dropped + dead)
  {
    if sent != [] {
      assert sent[0] in sent;
      PrunedIsMinus(sent[1..], read, dropped, dead, now);
      var q := Minus(sent[1..], dropped);
      assert ([sent[0]] + q)[0] == sent[0] && ([sent[0]] + q)[1..] == q;
      assert Minus(sent, dropped) == if sent[0] in dropped then q else [sent[0]] + q;
    }
  }

  lemma {:induction false} PickDistinct(q: seq<Message>, read: set<Message>, limit: int)
    ensures Distinct(Pick(q, read, true, limit))
  {
    if q != [] {
      if q[0] in read {
        PickDistinct(q[1..], read, limit);
      } else if limit > 1 {
        PickDistinct(q[1..], read + {q[0]}, limit - 1);
        PickMembers(q[1..], read + {q[0]}, true, limit - 1);
      }
    }
  }

  lemma {:induction false} OnlyDistinct(q: seq<Message>, keep: set<Message>)
    requires Distinct(q)
    ensures Distinct(Only(q, keep))
  {
    if q != [] {
      assert Distinct(q[1..]) && forall m :: m in q[1..] ==> m != q[0];
      OnlyDistinct(q[1..], keep);
      OnlyMembers(q[1..], keep);
    }
  }

  lemma JoinDistinct(p: seq<Message>, q: seq<Message>)
    requires Distinct(p) && Distinct(q) && forall m :: m in p ==> m !in q
    ensures Distinct(p + q)
  {
    forall i, j | 0 <= i < j < |p + q| ensures (p + q)[i] != (p + q)[j] {
      if i < |p| <= j {
        assert p[i] in p && q[j - |p|] in q;
      }
    }
  }

  // ---------- the invariant of broadcast-free runs ----------

  ghost predicate SentApart(t: Trace) {
    (forall a :: Distinct(Log(t.sent, a))) &&
    (forall a, b, m :: m in Log(t.sent, a) && m in Log(t.sent, b) ==> a == b)
  }

  /** What had been read before is owed to nobody. */
  ghost predicate PastApart(t: Trace) {
    t.past <= t.s.read && forall a, m :: m in Log(t.sent, a) ==> m !in t.past
  }

  ghost predicate InStep(t: Trace, a: Id) {
    Minus(Queue(t.s, a), t.past) == Minus(Log(t.sent, a), t.dropped) &&
    Log(t.got, a) == Only(Log(t.sent, a), t.s.read) &&
    ReadInOrder(Log(t.sent, a), t.s.read, t.dropped)
  }

  ghost predicate DroppedExpired(t: Trace) {
    forall m :: m in t.dropped ==> !Live(m, t.clock)
  }

  ghost predicate Inv(t: Trace) {
    SentApart(t) && PastApart(t) && (forall a :: InStep(t, a)) && DroppedExpired(t)
  }

  lemma QueuedIsOwedOrPast(t: Trace, a: Id)
    requires InStep(t, a)
    ensures forall m :: m in Queue(t.s, a) ==> m in t.past || (m in Log(t.sent, a) && m !in t.dropped)
    ensures forall m :: m in Log(t.sent, a) && m !in t.dropped ==> m in Queue(t.s, a)
  {
    MinusMembers(Queue(t.s, a), t.past);
    MinusMembers(Log(t.sent, a), t.dropped);
  }

  // ---------- loading ----------

  lemma {:induction false} MinusNothing(q: seq<Message>, gone: set<Message>)
    requires forall m :: m in q ==> m !in gone
    ensures Minus(q, gone) == q
  {
    if q != [] {
      assert q[0] in q;
      MinusNothing(q[1..], gone);
    }
  }

  lemma {:induction false} MinusDistinct(q: seq<Message>, gone: set<Message>)
    requires Distinct(q)
    ensures Distinct(Minus(q, gone))
  {
    if q != [] {
      TailDistinct(q);
      MinusDistinct(q[1..], gone);
      MinusMembers(q[1..], gone);
      JoinDistinct(if q[0] in gone then [] else [q[0]], Minus(q[1..], gone));
    }
  }

  /** A bus whose queues share no object, as every load makes them, starts its runs in order. */
  lemma LoadedIsInv(s: State, clock: real)
    requires Apart(s.queues)
    ensures Inv(JustLoaded(s, clock))
  {
    var t := JustLoaded(s, clock);
    forall a ensures InStep(t, a) && Distinct(Log(t.sent, a)) {
      var owed := Log(t.sent, a);
      if a in s.queues {
        MinusMembers(s.queues[a], s.read);
        MinusDistinct(s.queues[a], s.read);
      }
      assert forall m :: m in owed ==> m !in s.read && m in Queue(s, a);
      MinusNothing(owed, {});
      OnlyNothing(owed, s.read);
      NothingReadInOrder(owed, s.read, {});
    }
    forall a, m | m in Log(t.sent, a) ensures m !in s.read && a in s.queues && m in s.queues[a] {
      MinusMembers(s.queues[a], s.read);
    }
  }

  // ---------- sending and receiving ----------

  lemma SendKeepsApart(t: Trace, to: Id, m: Message)
    requires SentApart(t) && PastApart(t) && Fresh(t, m)
    ensures SentApart(Apply(t, Deliver(to, m))) && PastApart(Apply(t, Deliver(to, m)))
  {
    var u := Apply(t, Deliver(to, m));
    JoinDistinct(Log(t.sent, to), [m]);
    assert Log(u.sent, to) == Log(t.sent, to) + [m];
    forall a ensures Log(u.sent, a) == Log(t.sent, a) + if a == to then [m] else [] {
    }
  }

  lemma {:induction false} MinusAppend(q: seq<Message>, m: Message, gone: set<Message>)
    requires m !in gone
    ensures Minus(q + [m], gone) == Minus(q, gone) + [m]
  {
    if q != [] {
      assert (q + [m])[1..] == q[1..] + [m];
      MinusAppend(q[1..], m, gone);
    }
  }

  lemma SendKeepsInv(t: Trace, to: Id, m: Message)
    requires Inv(t) && Fresh(t, m)
    ensures Inv(Apply(t, Deliver(to, m)))
  {
    var u := Apply(t, Deliver(to, m));
    SendKeepsApart(t, to, m);
    forall a ensures InStep(u, a) {
      assert InStep(t, a);
      if a == to {
        AppendNew(Log(t.sent, a), m, t.s.read, t.dropped);
        MinusAppend(Queue(t.s, a), m, t.past);
      }
    }
  }

  /** A receive leaves an agent alone that is owed none of the messages in the receiver's queue. */
  lemma OthersUndisturbed(t: Trace, u: Trace, touched: seq<Message>, b: Id)
    requires InStep(t, b) && forall m :: m in Log(t.sent, b) ==> m !in touched
    requires Queue(u.s, b) == Queue(t.s, b) && Log(u.got, b) == Log(t.got, b) && u.sent == t.sent && u.past == t.past
    requires forall m :: m !in touched ==> (m in u.s.read <==> m in t.s.read) && (m in u.dropped <==> m in t.dropped)
    ensures InStep(u, b)
  {
    SameOnQueue(Log(t.sent, b), t.s.read, u.s.read, t.dropped, u.dropped);
  }

  /** Messages read before are passed over. */
  lemma {:induction false} PickPassesPast(q: seq<Message>, read: set<Message>, past: set<Message>, limit: int)
    requires past <= read
    ensures Pick(q, read, true, limit) == Pick(Minus(q, past), read, true, limit)
  {
    if q != [] {
      var rest := Minus(q[1..], past);
      assert ([q[0]] + rest)[0] == q[0] && ([q[0]] + rest)[1..] == rest;
      assert Minus(q, past) == if q[0] in past then rest else [q[0]] + rest;
      PickPassesPast(q[1..], if q[0] in read then read else read + {q[0]}, past,
                     if q[0] in read then limit else limit - 1);
    }
  }

  lemma {:induction false} PrunedMinus(q: seq<Message>, past: set<Message>, now: real)
    ensures Minus(Pruned(q, now), past) == Pruned(Minus(q, past), now)
  {
    if q != [] {
      PrunedMinus(q[1..], past, now);
      var a, b := Pruned(q[1..], now), Minus(q[1..], past);
      assert ([q[0]] + a)[0] == q[0] && ([q[0]] + a)[1..] == a;
      assert ([q[0]] + b)[0] == q[0] && ([q[0]] + b)[1..] == b;
      assert Pruned(q, now) == if Live(q[0], now) then [q[0]] + a else a;
      assert Minus(q, past) == if q[0] in past then b else [q[0]] + b;
    }
  }

  /** What a receive does to the receiver. */
  lemma ReceiverInStep(t: Trace, a: Id, limit: int)
    requires InStep(t, a) && PastApart(t) && Distinct(Log(t.sent, a))
    ensures InStep(Apply(t, Receive(a, limit)), a)
  {
    var sent, before := Log(t.sent, a), Queue(t.s, a);
    var q := Pruned(before, t.clock);
    var dead := Members(before) - Members(q);
    PrunedMembers(before, t.clock);
    QueuedIsOwedOrPast(t, a);
    PrunedMinus(before, t.past, t.clock);
    PrunedIsMinus(sent, t.s.read, t.dropped, dead, t.clock);
    PickPassesPast(q, t.s.read, t.past, limit);
    PickExtends(sent, t.s.read, t.dropped + dead, limit);
  }

  lemma ReceiveKeepsInv(t: Trace, a: Id, limit: int)
    requires Inv(t)
    ensures Inv(Apply(t, Receive(a, limit)))
  {
    var u, before := Apply(t, Receive(a, limit)), Queue(t.s, a);
    assert InStep(t, a);
    ReceiverInStep(t, a, limit);
    QueuedIsOwedOrPast(t, a);
    PrunedMembers(before, t.clock);
    PickMembers(Pruned(before, t.clock), t.s.read, true, limit);
    forall b ensures InStep(u, b) {
      if b != a {
        OthersUndisturbed(t, u, before, b);
      }
    }
    assert SentApart(u) && PastApart(u);
  }

  // ---------- reloading ----------

  lemma {:induction false} RenamedMinus(f: map<Message, Message>, q: seq<Message>, gone: set<Message>,
                                        after: set<Message>)
    requires forall m :: m in q ==> (CopyOf(f, m) in after <==> m in gone)
    ensures Minus(Renamed(f, q), after) == Renamed(f, Minus(q, gone))
  {
    if q != [] {
      assert q[0] in q;
      RenamedMinus(f, q[1..], gone, after);
      var r := Minus(q[1..], gone);
      assert ([q[0]] + r)[1..] == r && Renamed(f, q)[1..] == Renamed(f, q[1..]);
    }
  }

  lemma {:induction false} RenamedOnly(f: map<Message, Message>, q: seq<Message>, keep: set<Message>,
                                       after: set<Message>)
    requires forall m :: m in q ==> (CopyOf(f, m) in after <==> m in keep)
    ensures Only(Renamed(f, q), after) == Renamed(f, Only(q, keep))
  {
    if q != [] {
      assert q[0] in q;
      RenamedOnly(f, q[1..], keep, after);
      var r := Only(q[1..], keep);
      assert ([q[0]] + r)[1..] == r && Renamed(f, q)[1..] == Renamed(f, q[1..]);
    }
  }

  lemma {:induction false} RenamedInOrder(f: map<Message, Message>, q: seq<Message>, read: set<Message>,
                                          readAfter: set<Message>, dropped: set<Message>)
    requires ReadInOrder(q, read, dropped)
    requires forall m :: m in q ==> (CopyOf(f, m) in readAfter <==> m in read)
    requires forall m :: m in q ==> (CopyOf(f, m) in dropped <==> m in dropped)
    ensures ReadInOrder(Renamed(f, q), readAfter, dropped)
  {
    if q != [] {
      assert q[0] in q;
      RenamedInOrder(f, q[1..], read, readAfter, dropped);
      var r := Renamed(f, q);
      assert r[1..] == Renamed(f, q[1..]);
      if q[0] !in read && q[0] !in dropped {
        forall x | x in r[1..] ensures x !in readAfter {
          var i :| 0 <= i < |q[1..]| && Renamed(f, q[1..])[i] == x;
          assert q[1..][i] in q[1..];
        }
      }
    }
  }

  /** A copy is in the renamed set exactly when its original was in the set. */
  lemma CopyFollows(t: Trace, copies: map<Id, map<Message, Message>>, a: Id, m: Message, keep: set<Message>)
    requires CopiesOf(t, copies) && !Fresh(t, m) && forall x :: x in keep ==> !Fresh(t, x)
    ensures CopyOf(CopiesFor(copies, a), m) in keep + Images(copies, keep) <==> m in keep
  {
    var c := CopyOf(CopiesFor(copies, a), m);
    if c in Images(copies, keep) {
      var b, n :| b in copies && n in copies[b] && n in keep && copies[b][n] == c;
      assert Fresh(t, c);
    }
    if m in CopiesFor(copies, a) {
      assert Fresh(t, c);
      assert m in keep ==> c in Images(copies, keep);
    }
  }

  lemma CopiesDiffer(t: Trace, copies: map<Id, map<Message, Message>>, a: Id, b: Id, m: Message, n: Message)
    requires CopiesOf(t, copies) && !Fresh(t, m) && !Fresh(t, n)
    requires CopyOf(CopiesFor(copies, a), m) == CopyOf(CopiesFor(copies, b), n)
    ensures m == n
  {
    if m in CopiesFor(copies, a) {
      assert Fresh(t, copies[a][m]);
    }
    if n in CopiesFor(copies, b) {
      assert Fresh(t, copies[b][n]);
    }
  }

  lemma OldIsNotFresh(t: Trace, a: Id)
    ensures forall m :: m in t.s.read || m in t.past || m in t.dropped ==> !Fresh(t, m)
    ensures forall m :: m in Log(t.sent, a) || m in Log(t.got, a) || m in Queue(t.s, a) ==> !Fresh(t, m)
  {
  }

  /** A reload changes the objects and nothing else. */
  lemma ReloadInStep(t: Trace, copies: map<Id, map<Message, Message>>, a: Id)
    requires InStep(t, a) && PastApart(t) && CopiesOf(t, copies)
    ensures InStep(Reloaded(t, copies), a)
  {
    var u, f, sent := Reloaded(t, copies), CopiesFor(copies, a), Log(t.sent, a);
    OldIsNotFresh(t, a);
    QueuedIsOwedOrPast(t, a);
    forall m | m in sent
      ensures CopyOf(f, m) in u.s.read <==> m in t.s.read
      ensures CopyOf(f, m) in t.dropped <==> m in t.dropped
    {
      CopyFollows(t, copies, a, m, t.s.read);
      if m in f {
        assert m in Queue(t.s, a) && m !in t.past && Fresh(t, f[m]);
      }
    }
    forall m | m in Queue(t.s, a) ensures CopyOf(f, m) in u.past <==> m in t.past {
      CopyFollows(t, copies, a, m, t.past);
    }
    RenamedMinus(f, Queue(t.s, a), t.past, u.past);
    RenamedMinus(f, sent, t.dropped, t.dropped);
    RenamedOnly(f, sent, t.s.read, u.s.read);
    RenamedInOrder(f, sent, t.s.read, u.s.read, t.dropped);
  }

  lemma ReloadKeepsApart(t: Trace, copies: map<Id, map<Message, Message>>)
    requires SentApart(t) && PastApart(t) && CopiesOf(t, copies)
    ensures SentApart(Reloaded(t, copies)) && PastApart(Reloaded(t, copies))
  {
    var u := Reloaded(t, copies);
    forall a, i | 0 <= i < |Log(u.sent, a)|
      ensures Log(u.sent, a)[i] == CopyOf(CopiesFor(copies, a), Log(t.sent, a)[i]) && Log(u.sent, a)[i] !in u.past
    {
      OldIsNotFresh(t, a);
      CopyFollows(t, copies, a, Log(t.sent, a)[i], t.past);
    }
    forall a, b, i, j | 0 <= i < |Log(u.sent, a)| && 0 <= j < |Log(u.sent, b)| && Log(u.sent, a)[i] == Log(u.sent, b)[j]
      ensures a == b && i == j
    {
      OldIsNotFresh(t, a);
      OldIsNotFresh(t, b);
      CopiesDiffer(t, copies, a, b, Log(t.sent, a)[i], Log(t.sent, b)[j]);
    }
  }

  lemma ReloadKeepsInv(t: Trace, copies: map<Id, map<Message, Message>>)
    requires Inv(t) && CopiesOf(t, copies)
    ensures Inv(Reloaded(t, copies))
  {
    ReloadKeepsApart(t, copies);
    forall a ensures InStep(Reloaded(t, copies), a) {
      assert InStep(t, a);
      ReloadInStep(t, copies, a);
    }
  }

  function Bodies(q: seq<Message>): (r: seq<Body>)
    ensures |r| == |q| && forall i :: 0 <= i < |q| ==> r[i] == q[i].body
  {
    seq(|q|, i requires 0 <= i < |q| => q[i].body)
  }

  lemma RenamedBodies(f: map<Message, Message>, q: seq<Message>)
    requires forall m :: m in f ==> f[m].body == m.body
    ensures Bodies(Renamed(f, q)) == Bodies(q)
  {
  }

  /** A reload leaves the contents of all histories and queues as they are. */
  lemma ReloadKeepsContents(t: Trace, copies: map<Id, map<Message, Message>>, a: Id)
    requires CopiesOf(t, copies)
    ensures var u := Reloaded(t, copies);
      Bodies(Log(u.sent, a)) == Bodies(Log(t.sent, a)) && Bodies(Log(u.got, a)) == Bodies(Log(t.got, a)) &&
      Bodies(Queue(u.s, a)) == Bodies(Queue(t.s, a))
  {
    var f := CopiesFor(copies, a);
    RenamedBodies(f, Log(t.sent, a));
    RenamedBodies(f, Log(t.got, a));
    RenamedBodies(f, Queue(t.s, a));
  }

  // ---------- over runs ----------

  lemma {:induction false} RunKeepsInv(start: Trace, steps: seq<Step>)
    requires Inv(start) && PossibleRun(start, steps)
    requires forall i :: 0 <= i < |steps| ==> BroadcastFree(steps[i])
    ensures Inv(Run(start, steps))
  {
    if steps != [] {
      var t, step := Run(start, steps[..|steps| - 1]), steps[|steps| - 1];
      RunKeepsInv(start, steps[..|steps| - 1]);
      assert BroadcastFree(step);
      match step
      case Send(to, m) => SendKeepsInv(t, to, m);
      case Deliver(to, m) => SendKeepsInv(t, to, m);
      case Receive(a, limit) => ReceiveKeepsInv(t, a, limit);
      case Tick(now) => TickKeepsInv(t, now);
      case Reload(copies) => ReloadKeepsInv(t, copies);
    }
  }

  lemma TickKeepsInv(t: Trace, now: real)
    requires Inv(t)
    ensures Inv(Apply(t, Tick(now)))
  {
    var u := Apply(t, Tick(now));
    forall a ensures InStep(u, a) {
      assert InStep(t, a);
    }
    assert SentApart(u) && PastApart(u);
  }

  ghost predicate OnceInOrder(t: Trace, a: Id) {
    Distinct(Log(t.got, a)) && Log(t.got, a) == Only(Log(t.sent, a), t.s.read)
  }

  ghost predicate NothingLost(t: Trace, a: Id) {
    forall m :: m in Log(t.sent, a) && m !in Log(t.got, a) ==> m in Queue(t.s, a) || !Live(m, t.clock)
  }

  ghost predicate OnlyToRecipient(t: Trace, a: Id) {
    forall m :: m in Log(t.got, a) ==> m in Log(t.sent, a) && forall b :: b != a ==> m !in Log(t.got, b)
  }

  /**
   * From every loaded bus, over every run without broadcasts, reloads included: each message is given to its
   * recipient alone, at most once and in the order of sending, and one not yet given is queued unless it has expired.
   */
  lemma OnceInOrderOrQueued(s: State, clock: real, steps: seq<Step>, a: Id)
    requires Apart(s.queues) && PossibleRun(JustLoaded(s, clock), steps)
    requires forall i :: 0 <= i < |steps| ==> BroadcastFree(steps[i])
    ensures var t := Run(JustLoaded(s, clock), steps);
      OnceInOrder(t, a) && NothingLost(t, a) && OnlyToRecipient(t, a)
  {
    LoadedIsInv(s, clock);
    RunKeepsInv(JustLoaded(s, clock), steps);
    InvMeans(Run(JustLoaded(s, clock), steps), a);
  }

  lemma InvMeans(t: Trace, a: Id)
    requires Inv(t)
    ensures OnceInOrder(t, a) && NothingLost(t, a) && OnlyToRecipient(t, a)
  {
    assert InStep(t, a);
    OnlyDistinct(Log(t.sent, a), t.s.read);
    OnlyMembers(Log(t.sent, a), t.s.read);
    QueuedIsOwedOrPast(t, a);
    forall m, b | m in Log(t.got, a) && b != a ensures m !in Log(t.got, b) {
      assert InStep(t, b);
      OnlyMembers(Log(t.sent, b), t.s.read);
    }
  }

  // ---------- broadcasts ----------

  ghost predicate GivenOnce(t: Trace) {
    (forall a :: Distinct(Log(t.got, a))) &&
    (forall a, m :: m in Log(t.got, a) ==> m in t.s.read) &&
    (forall a, b, m :: m in Log(t.got, a) && m in Log(t.got, b) ==> a == b)
  }

  lemma GivenMore(t: Trace, u: Trace, a: Id, picked: seq<Message>)
    requires GivenOnce(t) && Distinct(picked) && forall m :: m in picked ==> m !in t.s.read
    requires u.got == t.got[a := Log(t.got, a) + picked] && u.s.read == t.s.read + Members(picked)
    ensures GivenOnce(u)
  {
    JoinDistinct(Log(t.got, a), picked);
    forall b ensures Log(u.got, b) == Log(t.got, b) + if b == a then picked else [] {
    }
    forall m | m in picked ensures m in u.s.read {
      assert m in Members(picked);
    }
  }

  lemma ReceiveGivesOnce(t: Trace, a: Id, limit: int)
    requires GivenOnce(t)
    ensures GivenOnce(Apply(t, Receive(a, limit)))
  {
    var u := Apply(t, Receive(a, limit));
    var q := Pruned(Queue(t.s, a), t.clock);
    PickMembers(q, t.s.read, true, limit);
    PickDistinct(q, t.s.read, limit);
    GivenMore(t, u, a, Pick(q, t.s.read, true, limit));
  }

  ghost predicate ReloadFree(steps: seq<Step>) {
    forall i :: 0 <= i < |steps| ==> !steps[i].Reload?
  }

  /** Until a reload no message is given twice in any run, broadcasts included: each reaches one agent at most. */
  lemma {:induction false} BroadcastReachesOneAtMost(start: Trace, steps: seq<Step>)
    requires GivenOnce(start) && ReloadFree(steps)
    ensures GivenOnce(Run(start, steps))
  {
    if steps != [] {
      BroadcastReachesOneAtMost(start, steps[..|steps| - 1]);
      var t, step := Run(start, steps[..|steps| - 1]), steps[|steps| - 1];
      assert !step.Reload?;
      if step.Receive? {
        ReceiveGivesOnce(t, step.agent, step.limit);
      }
    }
  }

  lemma {:induction false} PickIgnoresUnpicked(q: seq<Message>, read: set<Message>, more: set<Message>, limit: int)
    requires forall m :: m in Pick(q, read, true, limit) ==> m !in more
    ensures Pick(q, read + more, true, limit) == Pick(q, read, true, limit)
  {
    if q != [] {
      if q[0] in read {
        PickIgnoresUnpicked(q[1..], read, more, limit);
      } else {
        var picked := Pick(q, read, true, limit);
        assert picked[0] == q[0] && q[0] in picked;
        if limit > 1 {
          var next := Pick(q[1..], read + {q[0]}, true, limit - 1);
          assert picked == [q[0]] + next;
          forall m | m in next ensures m !in more {
            assert m in picked;
          }
          PickIgnoresUnpicked(q[1..], read + {q[0]}, more, limit - 1);
          assert read + {q[0]} + more == read + more + {q[0]};
        }
      }
    }
  }

  /** What agent `b` would get from its queue at time `now`. */
  function WouldGet(s: State, b: Id, limit: int, now: real): seq<Message> {
    Pick(Pruned(Queue(s, b), now), s.read, true, limit)
  }

  /** One agent's receive leaves what another would get as it is exactly when the two share no object. */
  lemma ReceivesIndependentIff(s: State, a: Id, b: Id, limit: int, limitB: int, now: real, later: real)
    requires a != b
    ensures WouldGet(Received(s, a, true, limit, now), b, limitB, later) == WouldGet(s, b, limitB, later) <==>
            forall m :: m in WouldGet(s, b, limitB, later) ==> m !in WouldGet(s, a, limit, now)
  {
    var u, mine, theirs := Received(s, a, true, limit, now), WouldGet(s, a, limit, now), WouldGet(s, b, limitB, later);
    assert Queue(u, b) == Queue(s, b) && u.read == s.read + Members(mine);
    if forall m :: m in theirs ==> m !in mine {
      PickIgnoresUnpicked(Pruned(Queue(s, b), later), s.read, Members(mine), limitB);
    } else {
      var m :| m in theirs && m in mine;
      PickMembers(Pruned(Queue(s, b), later), u.read, true, limitB);
      assert m in Members(mine) && m !in WouldGet(u, b, limitB, later);
    }
  }

  lemma {:induction false} PickAll(q: seq<Message>, read: set<Message>, limit: int, m: Message)
    requires m in q && m !in read && limit >= |q|
    ensures m in Pick(q, read, true, limit)
  {
    if q[0] in read {
      PickAll(q[1..], read, limit, m);
    } else if q[0] != m {
      PickAll(q[1..], read + {q[0]}, limit - 1, m);
    }
  }

  lemma {:induction false} PrunedShorter(q: seq<Message>, now: real)
    ensures |Pruned(q, now)| <= |q|
  {
    if q != [] {
      PrunedShorter(q[1..], now);
    }
  }

  /** Without a reload, the run gives the broadcast to everybody who had a queue when it was sent. */
  ghost predicate ReachesAll(t: Trace, m: Message, steps: seq<Step>) {
    ReloadFree(steps) && forall a :: a in t.s.queues ==> m in Log(Run(Apply(t, Send("broadcast", m)), steps).got, a)
  }

  lemma AllReachedMeansOne(t: Trace, m: Message, steps: seq<Step>)
    requires GivenOnce(t) && ReachesAll(t, m, steps)
    ensures |t.s.queues.Keys| <= 1
  {
    var u := Apply(t, Send("broadcast", m));
    assert GivenOnce(u);
    BroadcastReachesOneAtMost(u, steps);
    forall a, b | a in t.s.queues.Keys && b in t.s.queues.Keys ensures a == b {
      assert m in Log(Run(u, steps).got, a) && m in Log(Run(u, steps).got, b);
    }
    AtMostOne(t.s.queues.Keys);
  }

  lemma OneQueueIsReached(t: Trace, m: Message, a: Id)
    requires Fresh(t, m) && Live(m, t.clock) && t.s.queues.Keys == {a}
    ensures exists steps :: ReachesAll(t, m, steps)
  {
    var u := Apply(t, Send("broadcast", m));
    var q := Pruned(Queue(u.s, a), t.clock);
    PrunedMembers(Queue(u.s, a), t.clock);
    assert Queue(u.s, a)[|t.s.queues[a]|] == m;
    PickAll(q, u.s.read, |q|, m);
    RunOfOne(u, Receive(a, |q|));
    assert m in Log(Apply(u, Receive(a, |q|)).got, a);
    assert ReachesAll(t, m, [Receive(a, |q|)]);
  }

  /** Without a reload a broadcast can reach everybody exactly when there is at most one queue. */
  lemma BroadcastReachesAllIff(t: Trace, m: Message)
    requires GivenOnce(t) && Fresh(t, m) && Live(m, t.clock)
    ensures (exists steps :: ReachesAll(t, m, steps)) <==> |t.s.queues.Keys| <= 1
  {
    if steps :| ReachesAll(t, m, steps) {
      AllReachedMeansOne(t, m, steps);
    }
    if |t.s.queues.Keys| <= 1 {
      if a :| a in t.s.queues.Keys {
        Alone(t.s.queues.Keys, a);
        OneQueueIsReached(t, m, a);
      } else {
        assert ReachesAll(t, m, []);
      }
    }
  }

  lemma RunOfOne(t: Trace, step: Step)
    ensures Run(t, [step]) == Apply(t, step)
  {
    assert [step][..0] == [] && Run(t, []) == t;
  }

  lemma AtMostOne(s: set<Id>)
    requires forall a, b :: a in s && b in s ==> a == b
    ensures |s| <= 1
  {
    if a :| a in s {
      assert s == {a};
    }
  }

  lemma Alone(s: set<Id>, a: Id)
    requires |s| <= 1 && a in s
    ensures s == {a}
  {
    assert |s - {a}| == |s| - 1;
  }

  // ---------- what a reload separates ----------

  ghost predicate QueuesDistinct(t: Trace) {
    forall a :: Distinct(Queue(t.s, a))
  }

  lemma {:induction false} PrunedDistinct(q: seq<Message>, now: real)
    requires Distinct(q)
    ensures Distinct(Pruned(q, now))
  {
    if q != [] {
      TailDistinct(q);
      PrunedDistinct(q[1..], now);
      PrunedMembers(q[1..], now);
      forall m | m in Pruned(q[1..], now) ensures m != q[0] {
        assert Live(m, now);
      }
      JoinDistinct(if Live(q[0], now) then [q[0]] else [], Pruned(q[1..], now));
    }
  }

  /** After a reload no object is in two places, however they were shared before. */
  lemma ReloadSeparates(t: Trace, copies: map<Id, map<Message, Message>>)
    requires QueuesDistinct(t) && CopiesOf(t, copies)
    ensures Apart(Reloaded(t, copies).s.queues) && QueuesDistinct(Reloaded(t, copies))
  {
    var u := Reloaded(t, copies);
    forall a, i | a in copies && 0 <= i < |u.s.queues[a]| ensures u.s.queues[a][i] == copies[a][t.s.queues[a][i]] {
      assert t.s.queues[a][i] in t.s.queues[a];
    }
    forall a, b, i, j | a in copies && b in copies && 0 <= i < |u.s.queues[a]| && 0 <= j < |u.s.queues[b]| &&
      u.s.queues[a][i] == u.s.queues[b][j] ensures a == b && i == j
    {
      assert t.s.queues[a][i] in copies[a] && t.s.queues[b][j] in copies[b];
      assert a == b && t.s.queues[a][i] == t.s.queues[b][j];
      assert Distinct(Queue(t.s, a));
    }
    forall a ensures Distinct(Queue(u.s, a)) {
    }
  }

  /** What an agent is owed after a reload is a copy of everything unread in its queue, shared or not. */
  lemma UnreadIsOwed(t: Trace, copies: map<Id, map<Message, Message>>, a: Id)
    requires CopiesOf(t, copies) && a in t.s.queues
    ensures Log(JustLoaded(Reloaded(t, copies).s, t.clock).sent, a) ==
            Renamed(copies[a], Minus(t.s.queues[a], t.s.read))
  {
    OldIsNotFresh(t, a);
    forall m | m in t.s.queues[a] ensures CopyOf(copies[a], m) in Reloaded(t, copies).s.read <==> m in t.s.read {
      assert m in Queue(t.s, a);
      CopyFollows(t, copies, a, m, t.s.read);
    }
    RenamedMinus(copies[a], t.s.queues[a], t.s.read, Reloaded(t, copies).s.read);
  }

  lemma {:induction false} QueuesStayDistinct(start: Trace, steps: seq<Step>)
    requires QueuesDistinct(start) && PossibleRun(start, steps)
    ensures QueuesDistinct(Run(start, steps))
  {
    if steps != [] {
      QueuesStayDistinct(start, steps[..|steps| - 1]);
      var t, step := Run(start, steps[..|steps| - 1]), steps[|steps| - 1];
      forall a ensures Distinct(Queue(Apply(t, step).s, a)) {
        assert Distinct(Queue(t.s, a));
        match step
        case Send(to, m) => JoinDistinct(Queue(t.s, a), [m]);
        case Deliver(to, m) => JoinDistinct(Queue(t.s, a), [m]);
        case Receive(_, _) => PrunedDistinct(Queue(t.s, a), t.clock);
        case Tick(_) =>
        case Reload(copies) => ReloadSeparates(t, copies);
      }
    }
  }

  /**
   * After any run, broadcasts included, a reload makes a bus on which the laws of broadcast-free runs hold again:
   * every agent is owed its own copy of all that is unread in its queue.
   */
  lemma ReloadRestoresOrder(start: Trace, steps: seq<Step>, copies: map<Id, map<Message, Message>>,
                            more: seq<Step>, a: Id)
    requires QueuesDistinct(start) && PossibleRun(start, steps) && CopiesOf(Run(start, steps), copies)
    requires var s := Reloaded(Run(start, steps), copies).s;
      PossibleRun(JustLoaded(s, Run(start, steps).clock), more) &&
      forall i :: 0 <= i < |more| ==> BroadcastFree(more[i])
    ensures var t := Run(JustLoaded(Reloaded(Run(start, steps), copies).s, Run(start, steps).clock), more);
      OnceInOrder(t, a) && NothingLost(t, a) && OnlyToRecipient(t, a)
  {
    QueuesStayDistinct(start, steps);
    ReloadSeparates(Run(start, steps), copies);
    OnceInOrderOrQueued(Reloaded(Run(start, steps), copies).s, Run(start, steps).clock, more, a);
  }
}
