/** The message bus: per-agent queues of shared message objects with read flags and expiry. */
module Bus {
  import opened Wrappers
  import opened Sequences

  type Id = string

  datatype Kind = Task | Result | Alert | Data | Ping | Logging | Event | Signal

  /** The fields of a message that never change. */
  datatype Body = Body(id: string, sender: Id, to: Id, kind: Kind, content: string, timestamp: real,
                       replyTo: Option<string>, ttl: Option<real>)

  class Message {
    const body: Body
    var read: bool

    constructor (body: Body, read: bool)
      ensures this.body == body && this.read == read
    {
      this.body := body;
      this.read := read;
    }
  }

  /** A message as it is returned and as it is stored: the fields, without the object. */
  datatype Copy = Copy(body: Body, read: bool)

  // ---------- queues of message objects ----------

  /** Queues of message objects, and which objects have been marked read. */
  datatype State = State(queues: map<Id, seq<Message>>, read: set<Message>)

  function Queue(s: State, a: Id): seq<Message> {
    if a in s.queues then s.queues[a] else []
  }

  /** A message expires at its time to live. */
  predicate Live(m: Message, now: real) {
    m.body.ttl.None? || m.body.ttl.value > now
  }

  function Pruned(q: seq<Message>, now: real): seq<Message> {
    if q == [] then [] else (if Live(q[0], now) then [q[0]] else []) + Pruned(q[1..], now)
  }

  /** What a receive takes from the queue, marking as it goes; the limit is looked at only after a message is taken. */
  function Pick(q: seq<Message>, read: set<Message>, unreadOnly: bool, limit: int): seq<Message> {
    if q == [] then []
    else if unreadOnly && q[0] in read then Pick(q[1..], read, unreadOnly, limit)
    else [q[0]] + if limit <= 1 then [] else Pick(q[1..], read + {q[0]}, unreadOnly, limit - 1)
  }

  ghost function Sent(s: State, to: Id, m: Message): State {
    if to == "broadcast" then s.(queues := map a | a in s.queues :: s.queues[a] + [m])
    else Delivered(s, to, m)
  }

  ghost function Delivered(s: State, to: Id, m: Message): State {
    s.(queues := s.queues[to := Queue(s, to) + [m]])
  }

  ghost function Received(s: State, a: Id, unreadOnly: bool, limit: int, now: real)
    : State
  {
    var q := Pruned(Queue(s, a), now);
    State(s.queues[a := q], s.read + Members(Pick(q, s.read, unreadOnly, limit)))
  }

  lemma {:induction false} PickMembers(q: seq<Message>, read: set<Message>, unreadOnly: bool, limit: int)
    ensures forall m :: m in Pick(q, read, unreadOnly, limit) ==> m in q && (unreadOnly ==> m !in read)
  {
    if q != [] {
      assert q == [q[0]] + q[1..];
      if unreadOnly && q[0] in read {
        PickMembers(q[1..], read, unreadOnly, limit);
      } else if limit > 1 {
        PickMembers(q[1..], read + {q[0]}, unreadOnly, limit - 1);
      }
    }
  }

  lemma {:induction false} PrunedMembers(q: seq<Message>, now: real)
    ensures forall m :: m in Pruned(q, now) <==> m in q && Live(m, now)
  {
    if q != [] {
      PrunedMembers(q[1..], now);
      assert q == [q[0]] + q[1..];
    }
  }

  /** A receive takes the unread messages of a front of the queue, of all of it unless the limit is reached. */
  lemma {:induction false} PickIsFront(q: seq<Message>, read: set<Message>, limit: int) returns (n: nat)
    requires limit >= 1
    ensures var taken := Pick(q, read, true, limit);
      n <= |q| && |taken| <= limit && (|taken| < limit ==> n == |q|) &&
      (forall m :: m in taken <==> m in q[..n] && m !in read) && Distinct(taken)
  {
    if q == [] {
      n := 0;
    } else if q[0] in read {
      var k := PickIsFront(q[1..], read, limit);
      n := k + 1;
      assert q[..n] == [q[0]] + q[1..][..k];
    } else if limit == 1 {
      n := 1;
      assert q[..1] == [q[0]] && Pick(q, read, true, 1) == [q[0]] + [] == [q[0]];
    } else {
      var k := PickIsFront(q[1..], read + {q[0]}, limit - 1);
      n := k + 1;
      assert q[..n] == [q[0]] + q[1..][..k];
      PickFirst(q, read, true, limit);
      FirstApart(q[0], Pick(q[1..], read + {q[0]}, true, limit - 1));
    }
  }

  lemma FirstApart(m: Message, rest: seq<Message>)
    requires Distinct(rest) && m !in rest
    ensures Distinct([m] + rest) && forall x :: x in [m] + rest <==> x == m || x in rest
  {
  }

  /** A receive that asks for read messages too takes the oldest, one at least if there are any. */
  lemma {:induction false} PickAllIsFront(q: seq<Message>, read: set<Message>, limit: int)
    ensures Pick(q, read, false, limit) == q[..if limit < 1 then (if q == [] then 0 else 1)
                                               else if limit < |q| then limit else |q|]
  {
    if q != [] && limit > 1 {
      PickAllIsFront(q[1..], read + {q[0]}, limit - 1);
      assert q == [q[0]] + q[1..];
    }
  }

  /** What is left of a queue is what has not expired, in order. */
  lemma {:induction false} PrunedIsLive(q: seq<Message>, now: real)
    ensures forall m :: m in Pruned(q, now) <==> m in q && (m.body.ttl.None? || m.body.ttl.value > now)
    ensures (forall m :: m in q ==> m.body.ttl.None? || m.body.ttl.value > now) ==> Pruned(q, now) == q
  {
    PrunedMembers(q, now);
    if q != [] {
      PrunedIsLive(q[1..], now);
      assert q == [q[0]] + q[1..];
    }
  }

  // ---------- the bus itself ----------

  function Seconds(ttl: Option<real>, now: real): Option<real> {
    match ttl
    case None => None
    case Some(t) => if t == 0.0 then None else Some(now + t)
  }

  /** A queue holds, in order, the messages whose copies are given. */
  ghost predicate Stores(q: seq<Message>, copies: seq<Copy>)
    reads q
  {
    |q| == |copies| && forall i :: 0 <= i < |q| ==> copies[i] == Copy(q[i].body, q[i].read)
  }

  /** No object is in two places. */
  ghost predicate Apart(queues: map<Id, seq<Message>>) {
    (forall a :: a in queues ==> Distinct(queues[a])) &&
    (forall a, b, m :: a in queues && b in queues && m in queues[a] && m in queues[b] ==> a == b)
  }

  ghost function Queued(queues: map<Id, seq<Message>>): set<Message> {
    set a, m | a in queues && m in queues[a] :: m
  }

  /** The results are copies of the messages taken, each already marked read. */
  ghost predicate Returns(results: seq<Copy>, taken: seq<Message>) {
    |results| == |taken| && forall i :: 0 <= i < |results| ==> results[i] == Copy(taken[i].body, true)
  }

  lemma QueuedAfterSend(s: State, to: Id, m: Message)
    ensures Queued(Sent(s, to, m).queues) <= Queued(s.queues) + {m}
    ensures Queued(Delivered(s, to, m).queues) <= Queued(s.queues) + {m}
  {
  }

  /** The file is written and read without loss. */
  ghost predicate StoredAs(queues: map<Id, seq<Message>>, file: map<Id, seq<Copy>>)
    reads Queued(queues)
  {
    file.Keys == queues.Keys &&
    forall a :: a in queues ==> (
      assert forall m :: m in queues[a] ==> m in Queued(queues);
      Stores(queues[a], file[a]))
  }

  lemma QueuedWithNew(before: map<Id, seq<Message>>, a: Id, q: seq<Message>)
    requires a !in before && Apart(before) && Distinct(q)
    requires forall m :: m in q ==> m !in Queued(before)
    ensures Queued(before[a := q]) == Queued(before) + Members(q)
    ensures Apart(before[a := q])
  {
    var after := before[a := q];
    forall b, m | b in before && m in before[b] ensures m in Queued(after) && m !in q {
      assert b in after && m in after[b];
    }
    forall m | m in q ensures m in Queued(after) {
      assert a in after && m in after[a];
    }
  }

  ghost predicate Loaded(queues: map<Id, seq<Message>>, marked: set<Message>, file: map<Id, seq<Copy>>)
    reads Queued(queues)
  {
    Apart(queues) && StoredAs(queues, file) && marked <= Queued(queues) &&
    forall m :: m in Queued(queues) ==> (m.read <==> m in marked)
  }

  lemma LoadedOneMore(queues: map<Id, seq<Message>>, marked: set<Message>, file: map<Id, seq<Copy>>, a: Id,
                      q: seq<Message>, copies: seq<Copy>)
    requires Loaded(queues, marked, file) && a !in queues
    requires Distinct(q) && Stores(q, copies) && forall m :: m in q ==> m !in Queued(queues)
    ensures Loaded(queues[a := q], marked + (set m | m in q && m.read), file[a := copies])
  {
    QueuedWithNew(queues, a, q);
  }

  method LoadQueue(copies: seq<Copy>) returns (q: seq<Message>)
    ensures Stores(q, copies) && Distinct(q) && forall m :: m in q ==> fresh(m)
  {
    q := [];
    while |q| < |copies|
      invariant |q| <= |copies| && Stores(q, copies[..|q|]) && Distinct(q) && forall m :: m in q ==> fresh(m)
    {
      var c := copies[|q|];
      var m := new Message(c.body, c.read);
      assert m !in q;
      q := q + [m];
    }
  }

  /** Every stored message becomes an object of its own, so what was shared before is shared no more. */
  method LoadQueues(file: map<Id, seq<Copy>>) returns (queues: map<Id, seq<Message>>, ghost read: set<Message>)
    ensures Loaded(queues, read, file) && fresh(Queued(queues))
  {
    queues, read := map[], {};
    var todo := file.Keys;
    ghost var done: map<Id, seq<Copy>> := map[];
    while todo != {}
      invariant todo <= file.Keys && done.Keys == file.Keys - todo
      invariant forall a :: a in done ==> done[a] == file[a]
      invariant Loaded(queues, read, done) && fresh(Queued(queues))
      decreases |todo|
    {
      var a :| a in todo;
      var q := LoadQueue(file[a]);
      LoadedOneMore(queues, read, done, a, q, file[a]);
      QueuedWithNew(queues, a, q);
      queues, read, done := queues[a := q], read + (set m | m in q && m.read), done[a := file[a]];
      todo := todo - {a};
    }
    assert done == file;
  }

  lemma QueuedAfterPrune(s: State, a: Id, now: real)
    ensures Queued(s.queues[a := Pruned(Queue(s, a), now)]) <= Queued(s.queues)
    ensures forall m :: m in Pruned(Queue(s, a), now) ==> m in Queued(s.queues)
  {
    var before := Queue(s, a);
    var q := Pruned(before, now);
    PrunedMembers(before, now);
    var after := s.queues[a := q];
    forall m | m in q ensures m in Queued(s.queues) {
      assert Live(m, now);
      assert m in before;
    }
    forall b, m | b in after && m in after[b] ensures m in Queued(s.queues) {
      if b != a {
        assert b in s.queues && m in s.queues[b];
      }
    }
  }

  /** What is still to be picked at position `i`, once `picked` has been. */
  ghost predicate Picking(q: seq<Message>, read: set<Message>, unreadOnly: bool, limit: int, i: nat,
                          picked: seq<Message>)
  {
    i <= |q| && (picked == [] || |picked| < limit) &&
    Pick(q, read, unreadOnly, limit) == picked + Pick(q[i..], read + Members(picked), unreadOnly, limit - |picked|)
  }

  lemma PickingSkips(q: seq<Message>, read: set<Message>, limit: int, i: nat, picked: seq<Message>)
    requires Picking(q, read, true, limit, i, picked) && i < |q| && (q[i] in read || q[i] in picked)
    ensures Picking(q, read, true, limit, i + 1, picked)
  {
    assert q[i..][1..] == q[i + 1..];
  }

  lemma PickingFills(q: seq<Message>, read: set<Message>, unreadOnly: bool, limit: int, i: nat, picked: seq<Message>)
    requires Picking(q, read, unreadOnly, limit, i, picked) && i < |q| && |picked| + 1 >= limit
    requires !(unreadOnly && (q[i] in read || q[i] in picked))
    ensures Pick(q, read, unreadOnly, limit) == picked + [q[i]]
  {
    var m, rest, marked := q[i], q[i..], read + Members(picked);
    assert rest[0] == m && (unreadOnly ==> m !in marked);
    assert Pick(rest, marked, unreadOnly, limit - |picked|) == [m] + [] == [m];
  }

  lemma PickingTakes(q: seq<Message>, read: set<Message>, unreadOnly: bool, limit: int, i: nat, picked: seq<Message>)
    requires Picking(q, read, unreadOnly, limit, i, picked) && i < |q| && |picked| + 1 < limit
    requires !(unreadOnly && (q[i] in read || q[i] in picked))
    ensures Picking(q, read, unreadOnly, limit, i + 1, picked + [q[i]])
  {
    var m, rest, marked := q[i], q[i..], read + Members(picked);
    assert rest[0] == m && rest[1..] == q[i + 1..];
    PickFirst(rest, marked, unreadOnly, limit - |picked|);
    var taken := picked + [m];
    var more := Pick(q[i + 1..], marked + {m}, unreadOnly, limit - |picked| - 1);
    assert Members(taken) == Members(picked) + {m};
    assert read + Members(taken) == marked + {m} && limit - |taken| == limit - |picked| - 1;
    assert Pick(q[i + 1..], read + Members(taken), unreadOnly, limit - |taken|) == more;
    Regroup(picked, [m], more);
  }

  lemma PickFirst(q: seq<Message>, read: set<Message>, unreadOnly: bool, limit: int)
    requires q != [] && !(unreadOnly && q[0] in read) && limit > 1
    ensures Pick(q, read, unreadOnly, limit) == [q[0]] + Pick(q[1..], read + {q[0]}, unreadOnly, limit - 1)
  {
  }

  lemma Regroup(a: seq<Message>, b: seq<Message>, c: seq<Message>)
    ensures a + (b + c) == (a + b) + c
  {
  }

  class MessageBus {
    var queues: map<Id, seq<Message>>
    /** Every message that was ever marked read. */
    ghost var marked: set<Message>

    ghost function Objects(): set<Message>
      reads this
    {
      Queued(queues)
    }

    ghost predicate Valid()
      reads this, Objects()
    {
      forall m :: m in Objects() ==> (m.read <==> m in marked)
    }

    constructor Load(file: map<Id, seq<Copy>>)
      ensures Valid() && Loaded(queues, marked, file) && fresh(Objects())
    {
      var qs, read := LoadQueues(file);
      queues, marked := qs, read;
    }

    ghost function View(): State
      reads this
    {
      State(queues, marked)
    }

    method Send(id: string, sender: Id, to: Id, kind: Option<Kind>, content: string, replyTo: Option<string>,
                ttlSeconds: Option<real>, now: real) returns (m: Message)
      requires Valid()
      modifies this
      ensures Valid() && fresh(m) && View() == Sent(old(View()), to, m)
      ensures m.body == Body(id, sender, to, if kind.None? then Data else kind.value, content, now, replyTo,
                             m.body.ttl) && !m.read
      ensures m.body.ttl == if ttlSeconds.None? || ttlSeconds == Some(0.0) then None
                            else Some(now + ttlSeconds.value)
      ensures queues.Keys == old(queues).Keys + if to == "broadcast" then {} else {to}
      ensures forall a :: a in queues ==>
                queues[a] == (if a in old(queues) then old(queues)[a] else []) +
                             if to == "broadcast" || a == to then [m] else []
    {
      m := new Message(Body(id, sender, to, if kind.None? then Data else kind.value, content, now, replyTo,
                            Seconds(ttlSeconds, now)), false);
      QueuedAfterSend(View(), to, m);
      if to == "broadcast" {
        AppendToAll(m);
      } else {
        queues := queues[to := (if to in queues then queues[to] else []) + [m]];
      }
    }

    /** One object is appended to every queue. */
    method AppendToAll(m: Message)
      modifies this`queues
      ensures View() == Sent(old(View()), "broadcast", m)
    {
      var todo := queues.Keys;
      while todo != {}
        invariant todo <= queues.Keys == old(queues).Keys
        invariant forall a :: a in queues ==> queues[a] == old(queues)[a] + if a in todo then [] else [m]
        decreases |todo|
      {
        var a :| a in todo;
        queues := queues[a := queues[a] + [m]];
        todo := todo - {a};
      }
      assert queues == Sent(old(View()), "broadcast", m).queues;
    }

    method DeliverEvent(agent: Id, eventId: string, content: string, timestamp: real) returns (m: Message)
      requires Valid()
      modifies this
      ensures Valid() && fresh(m) && View() == Delivered(old(View()), agent, m)
      ensures m.body == Body("ev-" + eventId, "events", agent, Event, content, timestamp, None, None) && !m.read
      ensures queues == old(queues)[agent := (if agent in old(queues) then old(queues)[agent] else []) + [m]]
    {
      m := new Message(Body("ev-" + eventId, "events", agent, Event, content, timestamp, None, None), false);
      QueuedAfterSend(View(), agent, m);
      queues := queues[agent := (if agent in queues then queues[agent] else []) + [m]];
    }

    method Receive(agent: Id, unreadOnly: bool, limit: int, now: real) returns (results: seq<Copy>)
      requires Valid()
      modifies this, Objects()
      ensures Valid() && View() == Received(old(View()), agent, unreadOnly, limit, now)
      ensures Returns(results, Pick(Pruned(Queue(old(View()), agent), now), old(marked), unreadOnly, limit))
      ensures forall m :: m in old(Objects()) && m !in marked - old(marked) ==> m.read == old(m.read)
      ensures forall m :: m in queues[agent] <==>
                agent in old(queues) && m in old(queues)[agent] && (m.body.ttl.None? || m.body.ttl.value > now)
      ensures forall a :: a != agent ==>
                (a in queues <==> a in old(queues)) && (a in queues ==> queues[a] == old(queues)[a])
    {
      PrunedIsLive(if agent in queues then queues[agent] else [], now);
      var q := Prune(if agent in queues then queues[agent] else [], now);
      PickMembers(q, marked, unreadOnly, limit);
      QueuedAfterPrune(View(), agent, now);
      queues := queues[agent := q];
      results := Take(q, unreadOnly, limit);
    }

    /** Marks and copies messages, oldest first, and looks at the limit only after taking one. */
    method Take(q: seq<Message>, unreadOnly: bool, limit: int) returns (results: seq<Copy>)
      requires forall m :: m in q ==> (m.read <==> m in marked)
      modifies this`marked, q
      ensures forall m :: m in q ==> (m.read <==> m in marked)
      ensures marked == old(marked) + Members(Pick(q, old(marked), unreadOnly, limit))
      ensures Returns(results, Pick(q, old(marked), unreadOnly, limit))
    {
      results := [];
      var i := 0;
      ghost var before, picked: seq<Message> := marked, [];
      while i < |q|
        invariant 0 <= i <= |q| && Returns(results, picked)
        invariant marked == before + Members(picked)
        invariant forall m :: m in q ==> (m.read <==> m in marked)
        invariant Picking(q, before, unreadOnly, limit, i, picked)
      {
        var m := q[i];
        if unreadOnly && m.read {
          PickingSkips(q, before, limit, i, picked);
        } else {
          MarkRead(m);
          results := results + [Copy(m.body, m.read)];
          if |results| >= limit {
            PickingFills(q, before, unreadOnly, limit, i, picked);
            picked := picked + [m];
            break;
          }
          PickingTakes(q, before, unreadOnly, limit, i, picked);
          picked := picked + [m];
        }
        i := i + 1;
      }
      assert picked == Pick(q, before, unreadOnly, limit);
    }

    method MarkRead(m: Message)
      modifies m, this`marked
      ensures m.read && marked == old(marked) + {m}
    {
      m.read := true;
      marked := marked + {m};
    }

    method Prune(q: seq<Message>, now: real) returns (r: seq<Message>)
      ensures r == Pruned(q, now)
    {
      r := [];
      var i := |q|;
      while i > 0
        invariant 0 <= i <= |q| && r == Pruned(q[i..], now)
      {
        i := i - 1;
        assert q[i..][1..] == q[i + 1..];
        if Live(q[i], now) {
          r := [q[i]] + r;
        }
      }
    }
  }
}
