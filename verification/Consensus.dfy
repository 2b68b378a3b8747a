/** Multi-agent consensus: proposals, votes, withdrawal and the expiry reaper. */
module Consensus {
  import opened Wrappers
  import opened Sequences

  type Id = string

  datatype Status = Pending | Accepted | Rejected | Expired

  datatype Vote = Vote(accept: bool, reason: string, castAt: real)

  /** How a proposal was resolved. */
  datatype Result = Reached(finalVotes: map<Id, Vote>, resolvedAt: real)
                  | Impossible(finalVotes: map<Id, Vote>, resolvedAt: real)
                  | Withdrawn(resolvedAt: real)
                  | TooLate
                  | TtlExpired(resolvedAt: real)

  datatype Proposal = Proposal(
    proposer: Id, participants: seq<Id>, required: int, votes: map<Id, Vote>,
    status: Status, createdAt: real, expiresAt: real, result: Option<Result>)

  datatype Event = Proposed(proposal: Id) | VoteRequested(proposal: Id, participant: Id)
                 | VoteCast(proposal: Id, voter: Id, accept: bool)
                 | ReachedEvent(proposal: Id) | RejectedEvent(proposal: Id) | ExpiredEvent(proposal: Id)

  predicate Resolves(e: Event, p: Id) {
    (e.ReachedEvent? || e.RejectedEvent? || e.ExpiredEvent?) && e.proposal == p
  }

  // ---------- one proposal ----------

  function Accepts(votes: map<Id, Vote>): nat {
    |set v | v in votes && votes[v].accept|
  }

  function Rejects(votes: map<Id, Vote>): nat {
    |set v | v in votes && !votes[v].accept|
  }

  function Clamp(required: int, n: nat): int {
    var low := if required < n then required else n;
    if low < 1 then 1 else low
  }

  function NewProposal(proposer: Id, participants: seq<Id>, required: int, now: real, ttl: real): Proposal {
    Proposal(proposer, participants, Clamp(required, |participants|), map[], Pending, now, now + ttl, None)
  }

  datatype VoteError = NotFound | NotPending | NotParticipant | AlreadyVoted | HasExpired

  /** The outcome of a vote on a stored proposal: the proposal to store, and the error raised if any. */
  datatype VoteOutcome = VoteOutcome(proposal: Proposal, error: Option<VoteError>)

  function CastVote(p: Proposal, voter: Id, accept: bool, reason: string, now: real): VoteOutcome {
    if p.status != Pending then VoteOutcome(p, Some(NotPending))
    else if voter !in p.participants then VoteOutcome(p, Some(NotParticipant))
    else if voter in p.votes then VoteOutcome(p, Some(AlreadyVoted))
    else if now > p.expiresAt then VoteOutcome(p.(status := Expired, result := Some(TooLate)), Some(HasExpired))
    else
      var votes := p.votes[voter := Vote(accept, reason, now)];
      var remaining := |p.participants| - |votes|;
      var q := p.(votes := votes);
      VoteOutcome(
        if Accepts(votes) >= p.required then q.(status := Accepted, result := Some(Reached(votes, now)))
        else if Accepts(votes) + remaining < p.required
        then q.(status := Rejected, result := Some(Impossible(votes, now)))
        else q,
        None)
  }

  // ---------- the decision is exact ----------

  /** The voters of `order` that accept under `f`. */
  ghost function Yes(order: seq<Id>, f: Id -> bool): set<Id> {
    set v | v in order && f(v)
  }

  /** Everybody of `order` tries to vote as `f` says, in time; refused votes change nothing. */
  ghost function VoteAll(p: Proposal, order: seq<Id>, f: Id -> bool, now: real): Proposal {
    if order == [] then p else
      var v := order[|order| - 1];
      CastVote(VoteAll(p, order[..|order| - 1], f, now), v, f(v), "", now).proposal
  }

  /** What the votes of `order` decide among `n` participants. */
  ghost function Decision(order: seq<Id>, f: Id -> bool, required: int, n: nat): Status {
    if |Yes(order, f)| >= required then Accepted
    else if |Yes(order, f)| + n - |order| < required then Rejected
    else Pending
  }

  lemma YesSnoc(order: seq<Id>, f: Id -> bool)
    requires Distinct(order) && order != []
    ensures var v := order[|order| - 1];
      |Yes(order, f)| == |Yes(order[..|order| - 1], f)| + if f(v) then 1 else 0
  {
    var front, v := order[..|order| - 1], order[|order| - 1];
    assert Yes(order, f) == if f(v) then Yes(front, f) + {v} else Yes(front, f);
    assert v !in front;
  }

  /** `q` is `p` after the votes of `order`: decided by the counts, and while undecided it holds them all. */
  ghost predicate After(p: Proposal, q: Proposal, order: seq<Id>, f: Id -> bool) {
    q.participants == p.participants && q.required == p.required && q.expiresAt == p.expiresAt &&
    q.status == Decision(order, f, p.required, |p.participants|) &&
    (q.status == Pending ==> q.votes.Keys == Members(order) && forall v :: v in order ==> q.votes[v].accept == f(v))
  }

  lemma {:induction false} VoteAllDecides(p: Proposal, order: seq<Id>, f: Id -> bool, now: real)
    requires p.status == Pending && p.votes == map[] && now <= p.expiresAt
    requires 1 <= p.required <= |p.participants|
    requires Distinct(order) && forall v :: v in order ==> v in p.participants
    ensures After(p, VoteAll(p, order, f, now), order, f)
  {
    if order == [] {
      assert Yes(order, f) == {};
    } else {
      var front, v := order[..|order| - 1], order[|order| - 1];
      assert order == front + [v] && v in order && v !in front;
      forall x | x in front ensures x in p.participants { assert x in order; }
      VoteAllDecides(p, front, f, now);
      DistinctSize(order);
      SubsetSize(Members(order), Members(p.participants));
      MembersBound(p.participants);
      DecideStep(p, VoteAll(p, front, f, now), order, f, now);
    }
  }

  lemma DecideStep(p: Proposal, q: Proposal, order: seq<Id>, f: Id -> bool, now: real)
    requires order != [] && After(p, q, order[..|order| - 1], f) && Distinct(order)
    requires now <= p.expiresAt && |order| <= |p.participants| && order[|order| - 1] in p.participants
    ensures After(p, CastVote(q, order[|order| - 1], f(order[|order| - 1]), "", now).proposal, order, f)
  {
    var front, v := order[..|order| - 1], order[|order| - 1];
    YesSnoc(order, f);
    assert order == front + [v];
    if q.status == Pending {
      DecideOpen(p, q, front, v, f, now);
    }
  }

  lemma DecideOpen(p: Proposal, q: Proposal, front: seq<Id>, v: Id, f: Id -> bool, now: real)
    requires After(p, q, front, f) && q.status == Pending && Distinct(front) && v !in front
    requires now <= p.expiresAt && v in p.participants
    requires |Yes(front + [v], f)| == |Yes(front, f)| + if f(v) then 1 else 0
    ensures After(p, CastVote(q, v, f(v), "", now).proposal, front + [v], f)
  {
    CastVoteTally(q, front, f, v, now);
    assert v !in q.votes.Keys;
  }

  lemma CastVoteTally(q: Proposal, front: seq<Id>, f: Id -> bool, v: Id, now: real)
    requires q.votes.Keys == Members(front) && forall x :: x in front ==> q.votes[x].accept == f(x)
    requires Distinct(front) && v !in front
    ensures var votes := q.votes[v := Vote(f(v), "", now)];
      |votes| == |front| + 1 && Accepts(votes) == |Yes(front, f)| + (if f(v) then 1 else 0) &&
      votes.Keys == Members(front + [v]) && forall x :: x in front + [v] ==> votes[x].accept == f(x)
  {
    var votes := q.votes[v := Vote(f(v), "", now)];
    DistinctSize(front);
    assert votes.Keys == Members(front) + {v};
    TallyIsYes(votes, front, f, v);
  }

  lemma TallyIsYes(votes: map<Id, Vote>, front: seq<Id>, f: Id -> bool, v: Id)
    requires votes.Keys == Members(front) + {v} && v !in front && votes[v].accept == f(v)
    requires forall x :: x in front ==> votes[x].accept == f(x)
    ensures Accepts(votes) == |Yes(front, f)| + (if f(v) then 1 else 0)
  {
    var yes := set x | x in votes && votes[x].accept;
    assert yes == if f(v) then Yes(front, f) + {v} else Yes(front, f);
  }

  ghost predicate Ballot(p: Proposal, order: seq<Id>) {
    Distinct(order) && Members(order) == Members(p.participants)
  }

  /** With everybody heard, acceptance is by count of accepts alone, in whatever order they voted. */
  lemma EarlyDecisionIsExact(p: Proposal, order: seq<Id>, f: Id -> bool, now: real)
    requires p.status == Pending && p.votes == map[] && now <= p.expiresAt
    requires 1 <= p.required <= |p.participants|
    requires Distinct(p.participants) && Ballot(p, order)
    ensures VoteAll(p, order, f, now).status ==
      if |Yes(p.participants, f)| >= p.required then Accepted else Rejected
  {
    forall v | v in order ensures v in p.participants { assert v in Members(order); }
    VoteAllDecides(p, order, f, now);
    DistinctSize(order);
    DistinctSize(p.participants);
    forall v ensures v in order <==> v in p.participants {
      assert v in Members(order) <==> v in Members(p.participants);
    }
    assert Yes(order, f) == Yes(p.participants, f);
  }

  /** A full round of votes always decides, whatever the votes, exactly when no participant is listed twice. */
  lemma AlwaysDecidedIffDistinct(p: Proposal, order: seq<Id>, now: real)
    requires p.status == Pending && p.votes == map[] && now <= p.expiresAt
    requires 1 <= p.required <= |p.participants| && Ballot(p, order)
    ensures (forall f: Id -> bool :: VoteAll(p, order, f, now).status != Pending) <==> Distinct(p.participants)
  {
    if Distinct(p.participants) {
      forall f: Id -> bool ensures VoteAll(p, order, f, now).status != Pending {
        EarlyDecisionIsExact(p, order, f, now);
      }
    } else {
      var f := Undecided(p, order, now);
      assert VoteAll(p, order, f, now).status == Pending;
    }
  }

  /** With a participant listed twice, just short of the required accepts leaves the proposal open for ever. */
  lemma Undecided(p: Proposal, order: seq<Id>, now: real) returns (f: Id -> bool)
    requires p.status == Pending && p.votes == map[] && now <= p.expiresAt
    requires 1 <= p.required <= |p.participants| && Ballot(p, order) && !Distinct(p.participants)
    ensures VoteAll(p, order, f, now).status == Pending
  {
    forall v | v in order ensures v in p.participants { assert v in Members(order); }
    RepeatShrinks(p.participants);
    DistinctSize(order);
    var k := if |order| < p.required then |order| else p.required - 1;
    f := v => v in order[..k];
    DistinctSize(order[..k]);
    assert Yes(order, f) == Members(order[..k]);
    VoteAllDecides(p, order, f, now);
  }

  ghost predicate Extends(order: seq<Id>, f: Id -> bool, g: Id -> bool) {
    forall v :: v in order ==> g(v) == f(v)
  }

  /** Those who have not voted yet can still bring the proposal to `status`. */
  ghost predicate CanEnd(p: Proposal, order: seq<Id>, rest: seq<Id>, f: Id -> bool, now: real, status: Status) {
    exists g: Id -> bool :: Extends(order, f, g) && VoteAll(p, order + rest, g, now).status == status
  }

  /** A decision is still open exactly while both outcomes are possible for those who have not voted. */
  lemma PendingIffBothPossible(p: Proposal, order: seq<Id>, rest: seq<Id>, f: Id -> bool, now: real)
    requires p.status == Pending && p.votes == map[] && now <= p.expiresAt
    requires 1 <= p.required <= |p.participants|
    requires Distinct(p.participants) && Ballot(p, order + rest)
    ensures VoteAll(p, order, f, now).status == Pending <==>
      CanEnd(p, order, rest, f, now, Accepted) && CanEnd(p, order, rest, f, now, Rejected)
  {
    PartBallot(p, order, rest);
    VoteAllDecides(p, order, f, now);
    DistinctSize(order + rest);
    DistinctSize(p.participants);
    if VoteAll(p, order, f, now).status == Pending {
      EarlyDecisionIsExact(p, order + rest, Optimist(order, f), now);
      EarlyDecisionIsExact(p, order + rest, Pessimist(order, f), now);
      Extremes(p, order, rest, f);
      assert Extends(order, f, Optimist(order, f)) && Extends(order, f, Pessimist(order, f));
    }
    if CanEnd(p, order, rest, f, now, Accepted) && CanEnd(p, order, rest, f, now, Rejected) {
      var g: Id -> bool :| Extends(order, f, g) && VoteAll(p, order + rest, g, now).status == Accepted;
      EarlyDecisionIsExact(p, order + rest, g, now);
      Between(p, order, rest, f, g);
      var h: Id -> bool :| Extends(order, f, h) && VoteAll(p, order + rest, h, now).status == Rejected;
      EarlyDecisionIsExact(p, order + rest, h, now);
      Between(p, order, rest, f, h);
    }
  }

  ghost function Optimist(order: seq<Id>, f: Id -> bool): Id -> bool {
    v => if v in order then f(v) else true
  }

  ghost function Pessimist(order: seq<Id>, f: Id -> bool): Id -> bool {
    v => if v in order then f(v) else false
  }

  lemma PartBallot(p: Proposal, order: seq<Id>, rest: seq<Id>)
    requires Ballot(p, order + rest)
    ensures Distinct(order) && forall v :: v in order ==> v in p.participants
    ensures Distinct(rest) && forall v :: v in rest ==> v !in order
    ensures forall v :: v in p.participants <==> v in order || v in rest
  {
    var all := order + rest;
    forall v ensures v in p.participants <==> v in order || v in rest {
      assert v in Members(all) <==> v in Members(p.participants);
    }
    forall i, j | 0 <= i < j < |order| ensures order[i] != order[j] { assert all[i] != all[j]; }
    forall i, j | 0 <= i < j < |rest| ensures rest[i] != rest[j] {
      assert all[|order| + i] != all[|order| + j];
    }
    forall v | v in rest ensures v !in order {
      var j :| 0 <= j < |rest| && rest[j] == v;
      forall i | 0 <= i < |order| ensures order[i] != v { assert all[i] != all[|order| + j]; }
    }
  }

  lemma Between(p: Proposal, order: seq<Id>, rest: seq<Id>, f: Id -> bool, g: Id -> bool)
    requires Ballot(p, order + rest) && Extends(order, f, g)
    ensures |Yes(order, f)| <= |Yes(p.participants, g)| <= |Yes(order, f)| + |rest|
  {
    PartBallot(p, order, rest);
    assert Yes(p.participants, g) == Yes(order, f) + Yes(rest, g);
    SubsetSize(Yes(order, f), Yes(p.participants, g));
    SubsetSize(Yes(rest, g), Members(rest));
    MembersBound(rest);
    UnionBound(Yes(order, f), Yes(rest, g));
  }

  lemma Extremes(p: Proposal, order: seq<Id>, rest: seq<Id>, f: Id -> bool)
    requires Ballot(p, order + rest)
    ensures |Yes(p.participants, Optimist(order, f))| == |Yes(order, f)| + |rest|
    ensures |Yes(p.participants, Pessimist(order, f))| == |Yes(order, f)|
  {
    PartBallot(p, order, rest);
    DistinctSize(rest);
    assert Yes(p.participants, Optimist(order, f)) == Yes(order, f) + Members(rest);
    assert Yes(order, f) !! Members(rest);
    assert Yes(p.participants, Pessimist(order, f)) == Yes(order, f);
  }

  lemma UnionBound(a: set<Id>, b: set<Id>)
    ensures |a + b| <= |a| + |b|
  {
    assert |a + b| == |a| + |b - a|;
    SubsetSize(b - a, b);
  }

  // ---------- the protocol as interleaved steps ----------

  /** Stored proposals, events still to be emitted after a locked section, emitted events, the clock,
      and the reaper's notes: the time it read, and the proposals it found stale but has not yet locked. */
  datatype State = State(store: map<Id, Proposal>, outbox: seq<Event>, events: seq<Event>, clock: real,
                         scanNow: real, stale: set<Id>)

  datatype Step = Propose(id: Id, proposer: Id, participants: seq<Id>, required: int, ttl: real)
                | Cast(voter: Id, id: Id, accept: bool, reason: string)
                | Withdraw(agent: Id, id: Id)
                | StartScan
                | Examine(id: Id)
                | Expire(id: Id)
                | Emit(at: nat)
                | Tick(now: real)

  function Requests(id: Id, participants: seq<Id>): seq<Event> {
    if participants == [] then []
    else Requests(id, participants[..|participants| - 1]) + [VoteRequested(id, participants[|participants| - 1])]
  }

  function CastEvents(id: Id, voter: Id, accept: bool, after: Proposal): seq<Event> {
    [VoteCast(id, voter, accept)]
    + (if after.status == Accepted then [ReachedEvent(id)]
       else if after.status == Rejected then [RejectedEvent(id)] else [])
  }

  /** One atomic step; a step whose guard fails, or that raises, changes nothing. */
  function Apply(s: State, step: Step): State {
    match step
    case Propose(id, proposer, participants, required, ttl) =>
      if participants == [] || id in s.store then s else
        s.(store := s.store[id := NewProposal(proposer, participants, required, s.clock, ttl)],
           outbox := s.outbox + ([Proposed(id)] + Requests(id, participants)))
    case Cast(voter, id, accept, reason) =>
      if id !in s.store then s else
        var r := CastVote(s.store[id], voter, accept, reason, s.clock);
        s.(store := s.store[id := r.proposal],
           outbox := if r.error.Some? then s.outbox else s.outbox + CastEvents(id, voter, accept, r.proposal))
    case Withdraw(agent, id) =>
      if id !in s.store || s.store[id].proposer != agent || s.store[id].status != Pending then s else
        s.(store := s.store[id := s.store[id].(status := Rejected, result := Some(Withdrawn(s.clock)))],
           outbox := s.outbox + [RejectedEvent(id)])
    case StartScan => s.(scanNow := s.clock, stale := {})
    case Examine(id) =>
      if id in s.store && s.store[id].status == Pending && s.store[id].expiresAt <= s.scanNow
      then s.(stale := s.stale + {id}) else s
    case Expire(id) =>
      if id !in s.stale then s
      else if id !in s.store || s.store[id].status != Pending then s.(stale := s.stale - {id})
      else s.(store := s.store[id := s.store[id].(status := Expired, result := Some(TtlExpired(s.scanNow)))],
              outbox := s.outbox + [ExpiredEvent(id)], stale := s.stale - {id})
    case Emit(at) =>
      if at >= |s.outbox| then s else
        s.(outbox := s.outbox[..at] + s.outbox[at + 1..], events := s.events + [s.outbox[at]])
    case Tick(now) => if now < s.clock then s else s.(clock := now)
  }

  function Initial(clock: real): State {
    State(map[], [], [], clock, clock, {})
  }

  function Run(s: State, steps: seq<Step>): State {
    if steps == [] then s else Apply(Run(s, steps[..|steps| - 1]), steps[|steps| - 1])
  }

  // ---------- what every step keeps ----------

  ghost function Resolutions(es: seq<Event>, p: Id): nat {
    if es == [] then 0 else Resolutions(es[..|es| - 1], p) + if Resolves(es[|es| - 1], p) then 1 else 0
  }

  lemma {:induction false} ResolutionsConcat(a: seq<Event>, b: seq<Event>, p: Id)
    ensures Resolutions(a + b, p) == Resolutions(a, p) + Resolutions(b, p)
  {
    if b == [] {
      assert a + b == a;
    } else {
      ResolutionsConcat(a, b[..|b| - 1], p);
      assert (a + b)[..|a + b| - 1] == a + b[..|b| - 1];
    }
  }

  lemma {:induction false} RequestsResolveNothing(id: Id, participants: seq<Id>, p: Id)
    ensures Resolutions([Proposed(id)] + Requests(id, participants), p) == 0
  {
    ResolutionsConcat([Proposed(id)], Requests(id, participants), p);
    assert Resolutions([Proposed(id)], p) == Resolutions([Proposed(id)][..0], p);
    if participants != [] {
      var front := participants[..|participants| - 1];
      RequestsResolveNothing(id, front, p);
      ResolutionsConcat([Proposed(id)], Requests(id, front), p);
      assert Requests(id, participants)[..|Requests(id, participants)| - 1] == Requests(id, front);
    }
  }

  ghost predicate SoundProposal(p: Proposal) {
    1 <= p.required <= |p.participants| &&
    (forall v :: v in p.votes ==> v in p.participants && p.votes[v].castAt <= p.expiresAt) &&
    match p.status
    case Pending => p.result == None && Accepts(p.votes) < p.required &&
                    Accepts(p.votes) + |p.participants| - |p.votes| >= p.required
    case Accepted => p.result.Some? && p.result.value.Reached? && p.result.value.finalVotes == p.votes &&
                     Accepts(p.votes) >= p.required
    case Rejected => p.result.Some? &&
                     (p.result.value.Withdrawn? ||
                      (p.result.value.Impossible? && p.result.value.finalVotes == p.votes &&
                       Accepts(p.votes) + |p.participants| - |p.votes| < p.required))
    case Expired => p.result.Some? && (p.result.value == TooLate || p.result.value.TtlExpired?)
  }

  /** How many resolution events a proposal owes: one, unless it is pending or a late vote marked it expired. */
  ghost function Owed(s: State, p: Id): nat {
    if p in s.store && s.store[p].status != Pending && s.store[p].result != Some(TooLate) then 1 else 0
  }

  ghost predicate Matches(e: Event, s: State) {
    Resolves(e, e.proposal) ==>
      e.proposal in s.store &&
      s.store[e.proposal].status ==
        (if e.ReachedEvent? then Accepted else if e.RejectedEvent? then Rejected else Expired)
  }

  ghost predicate Inv(s: State) {
    (forall p :: p in s.store ==> SoundProposal(s.store[p])) &&
    (forall p :: Resolutions(s.outbox + s.events, p) == Owed(s, p)) &&
    forall e :: e in s.outbox + s.events ==> Matches(e, s)
  }

  lemma CastKeepsSound(p: Proposal, voter: Id, accept: bool, reason: string, now: real)
    requires SoundProposal(p)
    ensures SoundProposal(CastVote(p, voter, accept, reason, now).proposal)
  {
    var q := CastVote(p, voter, accept, reason, now).proposal;
    forall v | v in q.votes ensures v in p.participants && q.votes[v].castAt <= p.expiresAt {
      assert v == voter || v in p.votes;
    }
  }

  lemma NewIsSound(proposer: Id, participants: seq<Id>, required: int, now: real, ttl: real)
    requires participants != []
    ensures SoundProposal(NewProposal(proposer, participants, required, now, ttl))
  {
    var votes: map<Id, Vote> := map[];
    assert (set v | v in votes && votes[v].accept) == {};
  }

  /** Every step keeps every proposal sound. */
  lemma StepKeepsSound(s: State, step: Step, p: Id)
    requires forall q :: q in s.store ==> SoundProposal(s.store[q])
    requires p in Apply(s, step).store
    ensures SoundProposal(Apply(s, step).store[p])
  {
    match step {
      case Propose(id, proposer, participants, required, ttl) =>
        if participants != [] {
          NewIsSound(proposer, participants, required, s.clock, ttl);
        }
      case Cast(voter, id, accept, reason) =>
        if id in s.store {
          CastKeepsSound(s.store[id], voter, accept, reason, s.clock);
        }
      case _ =>
    }
  }

  /** A resolved proposal never changes again, and no proposal disappears. */
  lemma ResolvedIsFinal(s: State, step: Step, p: Id)
    requires p in s.store
    ensures p in Apply(s, step).store
    ensures s.store[p].status != Pending ==> Apply(s, step).store[p] == s.store[p]
  {
  }

  lemma EmitMoves(s: State, at: nat, p: Id)
    requires at < |s.outbox|
    ensures var t := Apply(s, Emit(at));
      Resolutions(t.outbox + t.events, p) == Resolutions(s.outbox + s.events, p)
  {
    var a, e, b := s.outbox[..at], [s.outbox[at]], s.outbox[at + 1..];
    assert s.outbox == a + (e + b);
    ResolutionsConcat(s.outbox, s.events, p);
    ResolutionsConcat(a, e + b, p);
    ResolutionsConcat(e, b, p);
    MovedOut(a, b, s.events, e, p);
  }

  lemma MovedOut(a: seq<Event>, b: seq<Event>, events: seq<Event>, e: seq<Event>, p: Id)
    ensures Resolutions((a + b) + (events + e), p)
         == Resolutions(a, p) + Resolutions(b, p) + Resolutions(events, p) + Resolutions(e, p)
  {
    ResolutionsConcat(a + b, events + e, p);
    ResolutionsConcat(a, b, p);
    ResolutionsConcat(events, e, p);
  }

  lemma OneEvent(e: Event, p: Id)
    ensures Resolutions([e], p) == if Resolves(e, p) then 1 else 0
  {
    assert Resolutions([e][..0], p) == 0;
  }

  lemma CastEventsResolve(id: Id, voter: Id, accept: bool, after: Proposal, p: Id)
    ensures Resolutions(CastEvents(id, voter, accept, after), p) ==
      if p == id && (after.status == Accepted || after.status == Rejected) then 1 else 0
  {
    var tail := if after.status == Accepted then [ReachedEvent(id)]
                else if after.status == Rejected then [RejectedEvent(id)] else [];
    ResolutionsConcat([VoteCast(id, voter, accept)], tail, p);
    OneEvent(VoteCast(id, voter, accept), p);
    if tail != [] {
      OneEvent(tail[0], p);
    }
  }

  lemma {:induction false} RequestsInOrder(id: Id, participants: seq<Id>)
    ensures |Requests(id, participants)| == |participants|
    ensures forall i :: 0 <= i < |participants| ==> Requests(id, participants)[i] == VoteRequested(id, participants[i])
  {
    if participants != [] {
      RequestsInOrder(id, participants[..|participants| - 1]);
    }
  }

  /** What a submission adds to the outbox. */
  lemma ProposalEvents(before: seq<Event>, id: Id, participants: seq<Id>)
    ensures var after := (before + [Proposed(id)]) + Requests(id, participants);
      after == before + ([Proposed(id)] + Requests(id, participants)) &&
      EventsOfProposal(before, after, id, participants)
  {
    RequestsInOrder(id, participants);
  }

  ghost predicate EventsOfProposal(before: seq<Event>, after: seq<Event>, id: Id, participants: seq<Id>) {
    |after| == |before| + 1 + |participants| && before + [Proposed(id)] <= after &&
    forall i :: 0 <= i < |participants| ==> after[|before| + 1 + i] == VoteRequested(id, participants[i])
  }

  lemma {:induction false} RequestsAreRequests(id: Id, participants: seq<Id>)
    ensures forall e :: e in Requests(id, participants) ==> e.VoteRequested?
  {
    if participants != [] {
      RequestsAreRequests(id, participants[..|participants| - 1]);
    }
  }

  /** What each step adds to the outbox resolves exactly what the step newly owes. */
  lemma StepPays(s: State, step: Step, p: Id)
    requires !step.Emit?
    ensures var t := Apply(s, step);
      t.events == s.events && |s.outbox| <= |t.outbox| && t.outbox == s.outbox + t.outbox[|s.outbox|..] &&
      Resolutions(t.outbox[|s.outbox|..], p) == Owed(t, p) - Owed(s, p)
  {
    var t := Apply(s, step);
    var more := t.outbox[|s.outbox|..];
    match step {
      case Propose(id, proposer, participants, required, ttl) =>
        if participants != [] && id !in s.store {
          assert more == [Proposed(id)] + Requests(id, participants);
          RequestsResolveNothing(id, participants, p);
        }
      case Cast(voter, id, accept, reason) =>
        if id in s.store {
          CastPays(s, voter, id, accept, reason, p);
        }
      case Withdraw(agent, id) =>
        if t != s {
          assert more == [RejectedEvent(id)];
          OneEvent(RejectedEvent(id), p);
        }
      case Expire(id) =>
        if t.outbox != s.outbox {
          assert more == [ExpiredEvent(id)];
          OneEvent(ExpiredEvent(id), p);
        }
      case _ =>
    }
  }

  /** A vote that is counted meets a pending proposal; one that is refused leaves it, or marks it expired. */
  lemma CastOutcomes(p: Proposal, voter: Id, accept: bool, reason: string, now: real)
    ensures var r := CastVote(p, voter, accept, reason, now);
      if r.error.None? then
        p.status == Pending && r.proposal.status != Expired &&
        (r.proposal.status != Pending ==> r.proposal.result != Some(TooLate))
      else
        r.proposal == p ||
        (p.status == Pending && r.proposal.status == Expired && r.proposal.result == Some(TooLate))
  {
  }

  lemma CastPays(s: State, voter: Id, id: Id, accept: bool, reason: string, p: Id)
    requires id in s.store
    ensures var t := Apply(s, Cast(voter, id, accept, reason));
      |s.outbox| <= |t.outbox| && t.outbox == s.outbox + t.outbox[|s.outbox|..] &&
      Resolutions(t.outbox[|s.outbox|..], p) == Owed(t, p) - Owed(s, p)
  {
    var t := Apply(s, Cast(voter, id, accept, reason));
    var r := CastVote(s.store[id], voter, accept, reason, s.clock);
    CastOutcomes(s.store[id], voter, accept, reason, s.clock);
    if r.error.None? {
      var more := CastEvents(id, voter, accept, r.proposal);
      assert t.outbox == s.outbox + more;
      assert t.outbox[|s.outbox|..] == more;
      CastEventsResolve(id, voter, accept, r.proposal, p);
    } else {
      assert t.outbox[|s.outbox|..] == [];
    }
    assert p != id ==> Owed(t, p) == Owed(s, p);
  }

  lemma StepMatches(s: State, step: Step, e: Event)
    requires Inv(s) && e in Apply(s, step).outbox + Apply(s, step).events
    ensures Matches(e, Apply(s, step))
  {
    var t := Apply(s, step);
    if e in s.outbox + s.events {
      assert Matches(e, s);
      if e.proposal in s.store {
        ResolvedIsFinal(s, step, e.proposal);
      }
    } else {
      NewEventMatches(s, step, e);
    }
  }

  lemma NewEventMatches(s: State, step: Step, e: Event)
    requires e in Apply(s, step).outbox + Apply(s, step).events && e !in s.outbox + s.events
    ensures Matches(e, Apply(s, step))
  {
    match step {
      case Propose(id, proposer, participants, required, ttl) => RequestsAreRequests(id, participants);
      case Cast(voter, id, accept, reason) =>
        var after := CastVote(s.store[id], voter, accept, reason, s.clock).proposal;
        assert e in CastEvents(id, voter, accept, after);
      case _ =>
    }
  }

  /** Every interleaving keeps the invariant. */
  lemma StepKeepsInv(s: State, step: Step)
    requires Inv(s)
    ensures Inv(Apply(s, step))
  {
    var t := Apply(s, step);
    forall p | p in t.store ensures SoundProposal(t.store[p]) {
      StepKeepsSound(s, step, p);
    }
    forall p ensures Resolutions(t.outbox + t.events, p) == Owed(t, p) {
      assert Resolutions(s.outbox + s.events, p) == Owed(s, p);
      if step.Emit? {
        if step.at < |s.outbox| {
          EmitMoves(s, step.at, p);
        }
      } else {
        StepPays(s, step, p);
        ResolutionsConcat(s.outbox, t.outbox[|s.outbox|..], p);
        ResolutionsConcat(s.outbox, s.events, p);
        ResolutionsConcat(t.outbox, t.events, p);
      }
    }
    forall e | e in t.outbox + t.events ensures Matches(e, t) {
      StepMatches(s, step, e);
    }
  }

  lemma {:induction false} RunKeepsInv(s: State, steps: seq<Step>)
    requires Inv(s)
    ensures Inv(Run(s, steps))
  {
    if steps != [] {
      RunKeepsInv(s, steps[..|steps| - 1]);
      StepKeepsInv(Run(s, steps[..|steps| - 1]), steps[|steps| - 1]);
    }
  }

  lemma InitialInv(clock: real)
    ensures Inv(Initial(clock))
  {
  }

  /** Once a proposal is resolved, every further run leaves its status, votes and result as they are. */
  lemma {:induction false} ResolvedForever(s: State, steps: seq<Step>, p: Id)
    requires p in s.store && s.store[p].status != Pending
    ensures p in Run(s, steps).store && Run(s, steps).store[p] == s.store[p]
  {
    if steps != [] {
      ResolvedForever(s, steps[..|steps| - 1], p);
      ResolvedIsFinal(Run(s, steps[..|steps| - 1]), steps[|steps| - 1], p);
    }
  }

  // ---------- what was asked, cast and expired ----------

  /** The number of accepts asked for, brought between one and the number of participants. */
  predicate Asks(required: int, n: nat, needed: int) {
    (1 <= required <= n ==> needed == required) && (required < 1 ==> needed == 1) && (required > n ==> needed == n)
  }

  /** What is stored under `p` is what step `k` proposed, at a time when nothing was stored there. */
  ghost predicate StoredBy(clock: real, steps: seq<Step>, p: Id, k: nat) {
    k < |steps| && steps[k].Propose? && steps[k].id == p && steps[k].participants != [] &&
    var s, t := Run(Initial(clock), steps[..k]), Run(Initial(clock), steps);
    p !in s.store && p in t.store &&
    t.store[p].proposer == steps[k].proposer && t.store[p].participants == steps[k].participants &&
    Asks(steps[k].required, |steps[k].participants|, t.store[p].required) &&
    t.store[p].createdAt == s.clock && t.store[p].expiresAt == s.clock + steps[k].ttl
  }

  /** `v` cast this vote on `p` in step `j`, when the proposal was stored and its time was not over. */
  ghost predicate VotedBy(clock: real, steps: seq<Step>, p: Id, v: Id, vote: Vote, j: nat) {
    j < |steps| && steps[j] == Cast(v, p, vote.accept, vote.reason) &&
    var s := Run(Initial(clock), steps[..j]);
    p in s.store && s.clock == vote.castAt <= s.store[p].expiresAt
  }

  /** What was asked for never changes, and a step that is no vote of `v` leaves the vote of `v` alone. */
  lemma StepKeepsTerms(s: State, step: Step, p: Id)
    requires p in s.store
    ensures p in Apply(s, step).store
    ensures var a, b := s.store[p], Apply(s, step).store[p];
      b.proposer == a.proposer && b.participants == a.participants && b.required == a.required &&
      b.createdAt == a.createdAt && b.expiresAt == a.expiresAt
  {
  }

  lemma {:induction false} Stored(clock: real, steps: seq<Step>, p: Id) returns (k: nat)
    requires p in Run(Initial(clock), steps).store
    ensures StoredBy(clock, steps, p, k)
  {
    var n := |steps| - 1;
    var before := Run(Initial(clock), steps[..n]);
    if p in before.store {
      k := Stored(clock, steps[..n], p);
      assert steps[..n][..k] == steps[..k];
      StepKeepsTerms(before, steps[n], p);
    } else {
      k := n;
    }
  }

  /** Every vote that a proposal holds was cast. */
  lemma {:induction false} VotesWereCast(clock: real, steps: seq<Step>, p: Id, v: Id) returns (j: nat)
    requires p in Run(Initial(clock), steps).store && v in Run(Initial(clock), steps).store[p].votes
    ensures VotedBy(clock, steps, p, v, Run(Initial(clock), steps).store[p].votes[v], j)
  {
    var n := |steps| - 1;
    var before, after := Run(Initial(clock), steps[..n]), Run(Initial(clock), steps);
    if p in before.store && v in before.store[p].votes && before.store[p].votes[v] == after.store[p].votes[v] {
      j := VotesWereCast(clock, steps[..n], p, v);
      assert steps[..n][..j] == steps[..j];
    } else {
      j := n;
      NewVoteWasCast(before, steps[n], p, v);
    }
  }

  lemma NewVoteWasCast(s: State, step: Step, p: Id, v: Id)
    requires p in Apply(s, step).store && v in Apply(s, step).store[p].votes
    requires !(p in s.store && v in s.store[p].votes && s.store[p].votes[v] == Apply(s, step).store[p].votes[v])
    ensures var vote := Apply(s, step).store[p].votes[v];
      step == Cast(v, p, vote.accept, vote.reason) && p in s.store && s.clock == vote.castAt <= s.store[p].expiresAt
  {
  }

  lemma {:induction false} StaysStored(s: State, steps: seq<Step>, p: Id)
    requires p in s.store
    ensures p in Run(s, steps).store && Run(s, steps).store[p].expiresAt == s.store[p].expiresAt
  {
    if steps != [] {
      StaysStored(s, steps[..|steps| - 1], p);
      StepKeepsTerms(Run(s, steps[..|steps| - 1]), steps[|steps| - 1], p);
    }
  }

  lemma {:induction false} RunOn(s: State, steps: seq<Step>, j: nat)
    requires j <= |steps|
    ensures Run(s, steps) == Run(Run(s, steps[..j]), steps[j..])
  {
    if j == |steps| {
      assert steps[..j] == steps && steps[j..] == [];
    } else {
      var front := steps[..|steps| - 1];
      RunOn(s, front, j);
      assert front[..j] == steps[..j] && steps[j..][..|steps| - 1 - j] == front[j..];
    }
  }

  /** In step `j` after step `k`, and within the time to live given there, `v` accepted `p`. */
  ghost predicate AcceptedIn(clock: real, steps: seq<Step>, p: Id, k: nat, v: Id, j: nat) {
    k < j < |steps| && steps[k].Propose? &&
    steps[j].Cast? && steps[j].voter == v && steps[j].id == p && steps[j].accept &&
    Run(Initial(clock), steps[..j]).clock <= Run(Initial(clock), steps[..k]).clock + steps[k].ttl
  }

  /** A participant whose accept the proposal holds accepted in a later step, in time. */
  lemma AcceptWasCast(clock: real, steps: seq<Step>, p: Id, k: nat, v: Id) returns (j: nat)
    requires StoredBy(clock, steps, p, k)
    requires v in Run(Initial(clock), steps).store[p].votes && Run(Initial(clock), steps).store[p].votes[v].accept
    ensures AcceptedIn(clock, steps, p, k, v, j)
  {
    j := VotesWereCast(clock, steps, p, v);
    var s := Run(Initial(clock), steps[..j]);
    if j <= k {
      RunOn(Initial(clock), steps[..k], j);
      assert steps[..k][..j] == steps[..j];
      StaysStored(s, steps[..k][j..], p);
    }
    RunOn(Initial(clock), steps, j);
    StaysStored(s, steps[j..], p);
  }

  /**
   * Over every run: accepted means that, of the participants of the step that proposed it, as many as it asked for,
   * or all if it asked for more, and one at least, accepted in later steps within its time to live.
   */
  lemma AcceptedIsEarned(clock: real, steps: seq<Step>, p: Id) returns (k: nat, yes: set<Id>)
    requires p in Run(Initial(clock), steps).store && Run(Initial(clock), steps).store[p].status == Accepted
    ensures StoredBy(clock, steps, p, k)
    ensures |yes| >= 1 && (|yes| >= steps[k].required || |yes| >= |steps[k].participants|)
    ensures forall v :: v in yes ==> v in steps[k].participants && exists j :: AcceptedIn(clock, steps, p, k, v, j)
  {
    InitialInv(clock);
    RunKeepsInv(Initial(clock), steps);
    k := Stored(clock, steps, p);
    var q := Run(Initial(clock), steps).store[p];
    assert SoundProposal(q);
    yes := set v | v in q.votes && q.votes[v].accept;
    forall v | v in yes ensures v in steps[k].participants && exists j :: AcceptedIn(clock, steps, p, k, v, j) {
      var j := AcceptWasCast(clock, steps, p, k, v);
    }
  }

  /** What the reaper has read and noted is not ahead of the clock, and what it wrote was late. */
  ghost predicate Timely(s: State) {
    s.scanNow <= s.clock &&
    (forall p :: p in s.stale ==> p in s.store && s.store[p].expiresAt <= s.scanNow) &&
    forall p :: p in s.store && s.store[p].result.Some? && s.store[p].result.value.TtlExpired? ==>
      s.store[p].expiresAt <= s.store[p].result.value.resolvedAt <= s.clock
  }

  lemma StepKeepsTimely(s: State, step: Step)
    requires Timely(s)
    ensures Timely(Apply(s, step))
  {
    var t := Apply(s, step);
    forall p | p in s.store ensures p in t.store && t.store[p].expiresAt == s.store[p].expiresAt {
      StepKeepsTerms(s, step, p);
    }
  }

  lemma {:induction false} RunKeepsTimely(s: State, steps: seq<Step>)
    requires Timely(s)
    ensures Timely(Run(s, steps))
  {
    if steps != [] {
      RunKeepsTimely(s, steps[..|steps| - 1]);
      StepKeepsTimely(Run(s, steps[..|steps| - 1]), steps[|steps| - 1]);
    }
  }

  /** A vote came when the time of `p` was over. */
  ghost predicate LateVote(clock: real, steps: seq<Step>, p: Id, j: nat) {
    j < |steps| && steps[j].Cast? && steps[j].id == p &&
    var s := Run(Initial(clock), steps[..j]);
    p in s.store && s.clock > s.store[p].expiresAt
  }

  lemma {:induction false} TooLateWasLate(clock: real, steps: seq<Step>, p: Id) returns (j: nat)
    requires p in Run(Initial(clock), steps).store && Run(Initial(clock), steps).store[p].result == Some(TooLate)
    ensures LateVote(clock, steps, p, j)
  {
    var n := |steps| - 1;
    var before := Run(Initial(clock), steps[..n]);
    if p in before.store && before.store[p].result == Some(TooLate) {
      j := TooLateWasLate(clock, steps[..n], p);
      assert steps[..n][..j] == steps[..j];
    } else {
      j := n;
    }
  }

  /** Over every run: expired means that a vote came too late, or that the reaper read a time past the expiry. */
  lemma ExpiredIsLate(clock: real, steps: seq<Step>, p: Id)
    requires p in Run(Initial(clock), steps).store && Run(Initial(clock), steps).store[p].status == Expired
    ensures var t := Run(Initial(clock), steps);
      (exists j :: LateVote(clock, steps, p, j)) ||
      (t.store[p].result.Some? && t.store[p].result.value.TtlExpired? &&
       t.store[p].expiresAt <= t.store[p].result.value.resolvedAt <= t.clock)
  {
    InitialInv(clock);
    RunKeepsInv(Initial(clock), steps);
    RunKeepsTimely(Initial(clock), steps);
    assert SoundProposal(Run(Initial(clock), steps).store[p]);
    if Run(Initial(clock), steps).store[p].result == Some(TooLate) {
      var j := TooLateWasLate(clock, steps, p);
    }
  }

  /** Over every run: at most one resolution event, owed once a proposal is resolved unless a late vote expired it. */
  lemma OneResolutionEvent(clock: real, steps: seq<Step>, p: Id)
    ensures var t := Run(Initial(clock), steps);
      Resolutions(t.outbox + t.events, p) <= 1 &&
      (Resolutions(t.outbox + t.events, p) == 1 <==>
       p in t.store && t.store[p].status != Pending && t.store[p].result != Some(TooLate))
  {
    InitialInv(clock);
    RunKeepsInv(Initial(clock), steps);
  }

  // ---------- the manager ----------

  /** What a counted vote reports. */
  datatype VoteResult = VoteResult(accepts: nat, rejects: nat, required: int, remaining: int, status: Status)

  datatype WithdrawOutcome = Done | NotDone | Denied

  class ConsensusManager {
    var store: map<Id, Proposal>
    var outbox: seq<Event>
    var events: seq<Event>
    var clock: real
    var scanNow: real
    var stale: set<Id>

    ghost function View(): State
      reads this
    {
      State(store, outbox, events, clock, scanNow, stale)
    }

    constructor (clock: real)
      ensures View() == Initial(clock)
    {
      store, outbox, events := map[], [], [];
      this.clock, scanNow, stale := clock, clock, {};
    }

    /** `id` is the fresh identifier drawn for the proposal; no participants is an error. */
    method Submit(id: Id, proposer: Id, participants: seq<Id>, required: int, ttl: real) returns (r: Option<Id>)
      requires id !in store
      modifies this
      ensures View() == Apply(old(View()), Propose(id, proposer, participants, required, ttl))
      ensures r == if participants == [] then None else Some(id)
      ensures r.Some? ==>
                Asks(required, |participants|, store[id].required) &&
                store == old(store)[id := Proposal(proposer, participants, store[id].required, map[], Pending,
                                                   clock, clock + ttl, None)]
      ensures r.Some? ==> EventsOfProposal(old(outbox), outbox, id, participants)
    {
      if participants == [] {
        return None;
      }
      var low := if required < |participants| then required else |participants|;
      var votesNeeded := if low < 1 then 1 else low;
      store := store[id := Proposal(proposer, participants, votesNeeded, map[], Pending, clock, clock + ttl, None)];
      outbox := outbox + [Proposed(id)];
      RequestVotes(id, participants);
      ProposalEvents(old(outbox), id, participants);
      r := Some(id);
    }

    method RequestVotes(id: Id, participants: seq<Id>)
      modifies this`outbox
      ensures outbox == old(outbox) + Requests(id, participants)
    {
      for i := 0 to |participants|
        invariant outbox == old(outbox) + Requests(id, participants[..i])
      {
        assert participants[..i + 1][..i] == participants[..i];
        outbox := outbox + [VoteRequested(id, participants[i])];
      }
      assert participants[..|participants|] == participants;
    }

    /** The locked section of a vote; its events wait in the outbox until they are emitted outside the lock. */
    method CastBallot(voter: Id, id: Id, accept: bool, reason: string)
      returns (error: Option<VoteError>, result: VoteResult)
      modifies this
      ensures View() == Apply(old(View()), Cast(voter, id, accept, reason))
      ensures error == if id !in old(store) then Some(NotFound)
                       else if old(store)[id].status != Pending then Some(NotPending)
                       else if voter !in old(store)[id].participants then Some(NotParticipant)
                       else if voter in old(store)[id].votes then Some(AlreadyVoted)
                       else if clock > old(store)[id].expiresAt then Some(HasExpired) else None
      ensures error.None? ==> store[id].votes == old(store)[id].votes[voter := Vote(accept, reason, clock)]
      ensures error.None? ==>
                result == VoteResult(Accepts(store[id].votes), Rejects(store[id].votes), store[id].required,
                                     |store[id].participants| - |store[id].votes|, store[id].status)
      ensures error.None? ==>
                store - {id} == old(store) - {id} &&
                outbox == old(outbox) + match store[id].status
                                        case Accepted => [VoteCast(id, voter, accept), ReachedEvent(id)]
                                        case Rejected => [VoteCast(id, voter, accept), RejectedEvent(id)]
                                        case _ => [VoteCast(id, voter, accept)]
      ensures error.Some? ==>
                outbox == old(outbox) &&
                store == if error != Some(HasExpired) then old(store)
                         else old(store)[id := old(store)[id].(status := Expired, result := Some(TooLate))]
    {
      error, result := None, VoteResult(0, 0, 0, 0, Pending);
      if id !in store {
        return Some(NotFound), result;
      }
      var proposal := store[id];
      if proposal.status != Pending {
        error := Some(NotPending);
      } else if voter !in proposal.participants {
        error := Some(NotParticipant);
      } else if voter in proposal.votes {
        error := Some(AlreadyVoted);
      } else if clock > proposal.expiresAt {
        proposal := proposal.(status := Expired, result := Some(TooLate));
        error := Some(HasExpired);
      }
      if error.Some? {
        store := store[id := proposal];
        return;
      }
      proposal := proposal.(votes := proposal.votes[voter := Vote(accept, reason, clock)]);
      var accepts, rejects := Accepts(proposal.votes), Rejects(proposal.votes);
      var remaining := |proposal.participants| - |proposal.votes|;
      var resolution := [];
      if accepts >= proposal.required {
        proposal := proposal.(status := Accepted, result := Some(Reached(proposal.votes, clock)));
        resolution := [ReachedEvent(id)];
      } else if accepts + remaining < proposal.required {
        proposal := proposal.(status := Rejected, result := Some(Impossible(proposal.votes, clock)));
        resolution := [RejectedEvent(id)];
      }
      store := store[id := proposal];
      outbox := outbox + ([VoteCast(id, voter, accept)] + resolution);
      result := VoteResult(accepts, rejects, proposal.required, remaining, proposal.status);
    }

    method WithdrawProposal(agent: Id, id: Id) returns (outcome: WithdrawOutcome)
      modifies this
      ensures View() == Apply(old(View()), Withdraw(agent, id))
      ensures outcome == if id !in old(store) then NotDone
                         else if old(store)[id].proposer != agent then Denied
                         else if old(store)[id].status != Pending then NotDone else Done
      ensures outcome != Done ==> store == old(store) && outbox == old(outbox)
      ensures outcome == Done ==>
                store == old(store)[id := old(store)[id].(status := Rejected, result := Some(Withdrawn(clock)))] &&
                outbox == old(outbox) + [RejectedEvent(id)]
    {
      if id !in store {
        return NotDone;
      }
      var proposal := store[id];
      if proposal.proposer != agent {
        return Denied;
      }
      if proposal.status != Pending {
        return NotDone;
      }
      store := store[id := proposal.(status := Rejected, result := Some(Withdrawn(clock)))];
      outbox := outbox + [RejectedEvent(id)];
      outcome := Done;
    }

    /** A whole reaper pass over the files `paths`, nothing else running: the stale pending ones expire. */
    method ExpireStale(paths: seq<Id>)
      modifies this`store, this`outbox
      ensures store == AfterPass(old(store), paths, clock)
      ensures outbox == old(outbox) + Expirations(old(store), paths, clock)
      ensures store.Keys == old(store).Keys
      ensures forall p :: p in store ==>
                store[p] == if p in paths && old(store)[p].status == Pending && old(store)[p].expiresAt <= clock
                            then old(store)[p].(status := Expired, result := Some(TtlExpired(clock)))
                            else old(store)[p]
    {
      var now := clock;
      ghost var expired: seq<Event> := [];
      for i := 0 to |paths|
        invariant store == AfterPass(old(store), paths[..i], now)
        invariant expired == Expirations(old(store), paths[..i], now) && outbox == old(outbox) + expired
      {
        var id := paths[i];
        PassOneMore(old(store), paths, i, now);
        if id in store && store[id].status == Pending && store[id].expiresAt <= now {
          store := store[id := ExpiredAt(store[id], now)];
          outbox := outbox + [ExpiredEvent(id)];
          expired := expired + [ExpiredEvent(id)];
        }
      }
      assert paths[..|paths|] == paths;
    }
  }

  function ExpiredAt(p: Proposal, now: real): Proposal {
    p.(status := Expired, result := Some(TtlExpired(now)))
  }

  predicate IsStale(store: map<Id, Proposal>, id: Id, now: real) {
    id in store && store[id].status == Pending && store[id].expiresAt <= now
  }

  /** A pass expires exactly the stale pending proposals that it lists. */
  function AfterPass(store: map<Id, Proposal>, paths: seq<Id>, now: real): map<Id, Proposal> {
    map p | p in store :: if p in paths && IsStale(store, p, now) then ExpiredAt(store[p], now) else store[p]
  }

  /** One event for each, in the order of the list. */
  function Expirations(store: map<Id, Proposal>, paths: seq<Id>, now: real): seq<Event> {
    if paths == [] then []
    else
      var front, last := paths[..|paths| - 1], paths[|paths| - 1];
      Expirations(store, front, now) +
      if last !in front && IsStale(store, last, now) then [ExpiredEvent(last)] else []
  }

  lemma PassOneMore(store: map<Id, Proposal>, paths: seq<Id>, i: nat, now: real)
    requires i < |paths|
    ensures var before, id := AfterPass(store, paths[..i], now), paths[i];
      (IsStale(before, id, now) <==> id !in paths[..i] && IsStale(store, id, now)) &&
      AfterPass(store, paths[..i + 1], now) ==
        (if IsStale(before, id, now) then before[id := ExpiredAt(before[id], now)] else before) &&
      Expirations(store, paths[..i + 1], now) ==
        Expirations(store, paths[..i], now) + if IsStale(before, id, now) then [ExpiredEvent(id)] else []
  {
    assert paths[..i + 1] == paths[..i] + [paths[i]] && paths[..i + 1][..i] == paths[..i];
  }
}
