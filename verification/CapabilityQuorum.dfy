/** One round of the agents' votes on the oldest pending capability proposals. */
module CapabilityQuorum {
  import opened Wrappers
  import opened AgentQuorum
  import opened Sequences

  const ROUND_LIMIT: nat := 20
  const CAPABILITY := "capability"

  /** How an agent judges a proposal. */
  type Judge = (Id, Proposal) -> bool

  datatype FinalizedProposal = FinalizedProposal(id: Id, approved: bool, yes: nat, no: int, total: nat)

  // ---------- the round on the map of proposals ----------

  /** The votes cast on `p` as it was listed: those who had voted by then are passed over. */
  function WithBallots(m: Store, p: Proposal, agents: seq<Id>, judge: Judge, percent: int): Store {
    if agents == [] then m
    else
      var a, before := agents[|agents| - 1], WithBallots(m, p, agents[..|agents| - 1], judge, percent);
      if a in p.votes then before else Apply(before, Vote(p.id, a, judge(a, p)), percent)
  }

  function Voters(agents: seq<Id>): nat {
    if |agents| > 1 then |agents| else 1
  }

  function VoteTotal(m: Store, id: Id): nat {
    if id in m then |m[id].votes| else 0
  }

  function Treated(m: Store, p: Proposal, agents: seq<Id>, judge: Judge, percent: int, now: real): Store {
    if p.kind != CAPABILITY then m
    else
      var voted := WithBallots(m, p, agents, judge, percent);
      if VoteTotal(voted, p.id) >= Voters(agents) then Apply(voted, Finalize(p.id, now), percent) else voted
  }

  function AfterRound(m: Store, ps: seq<Proposal>, agents: seq<Id>, judge: Judge, percent: int, now: real): Store {
    if ps == [] then m
    else Treated(AfterRound(m, ps[..|ps| - 1], agents, judge, percent, now), ps[|ps| - 1], agents, judge, percent, now)
  }

  // ---------- what a round does ----------

  /** All votes on a proposal at the end of its turn. */
  function Ballots(p: Proposal, agents: seq<Id>, judge: Judge): map<Id, bool> {
    map a | a in p.votes.Keys + Members(agents) :: if a in p.votes then p.votes[a] else judge(a, p)
  }

  /** The proposal at the end of its turn. */
  function Outcome(p: Proposal, agents: seq<Id>, judge: Judge, percent: int, now: real): Proposal {
    var voted := p.(votes := Ballots(p, agents, judge));
    if p.kind != CAPABILITY then p
    else if |voted.votes| >= Voters(agents) then Decided(voted, percent, now)
    else voted
  }

  lemma OneMoreBallot(p: Proposal, rest: seq<Id>, a: Id, judge: Judge)
    ensures a in p.votes ==> Ballots(p, rest + [a], judge) == Ballots(p, rest, judge)
    ensures a !in p.votes ==> Ballots(p, rest + [a], judge) == Ballots(p, rest, judge)[a := judge(a, p)]
  {
    assert Members(rest + [a]) == Members(rest) + {a};
  }

  lemma {:induction false} BallotsCast(m: Store, p: Proposal, agents: seq<Id>, judge: Judge, percent: int)
    requires p.id in m && m[p.id] == p
    ensures WithBallots(m, p, agents, judge, percent) == m[p.id := p.(votes := Ballots(p, agents, judge))]
  {
    if agents == [] {
      assert Ballots(p, [], judge) == p.votes;
    } else {
      var rest, a := agents[..|agents| - 1], agents[|agents| - 1];
      BallotsCast(m, p, rest, judge, percent);
      assert agents == rest + [a];
      OneMoreBallot(p, rest, a, judge);
    }
  }

  lemma TreatedIsOutcome(m: Store, p: Proposal, agents: seq<Id>, judge: Judge, percent: int, now: real)
    requires p.id in m && m[p.id] == p && p.status == Pending
    ensures Treated(m, p, agents, judge, percent, now) == m[p.id := Outcome(p, agents, judge, percent, now)]
  {
    BallotsCast(m, p, agents, judge, percent);
  }

  /** Every listed proposal ends its round with its own outcome, and no other is touched. */
  lemma {:induction false} EachGetsItsOutcome(m: Store, ps: seq<Proposal>, agents: seq<Id>, judge: Judge, percent: int,
                                              now: real)
    requires forall p :: p in ps ==> p.id in m && m[p.id] == p && p.status == Pending
    requires forall i, j :: 0 <= i < j < |ps| ==> ps[i].id != ps[j].id
    ensures var n := AfterRound(m, ps, agents, judge, percent, now);
      n.Keys == m.Keys && (forall p :: p in ps ==> n[p.id] == Outcome(p, agents, judge, percent, now)) &&
      (forall id :: id in m && m[id] !in ps ==> n[id] == m[id])
  {
    if ps != [] {
      var rest, p := ps[..|ps| - 1], ps[|ps| - 1];
      assert ps == rest + [p];
      EachGetsItsOutcome(m, rest, agents, judge, percent, now);
      var before := AfterRound(m, rest, agents, judge, percent, now);
      forall q | q in rest ensures q.id != p.id {
      }
      TreatedIsOutcome(before, p, agents, judge, percent, now);
    }
  }

  /** A capability proposal is decided in its round exactly when its voters are no fewer than the names listed. */
  lemma DecidedIff(p: Proposal, agents: seq<Id>, judge: Judge, percent: int, now: real)
    requires p.kind == CAPABILITY && p.status == Pending && agents != []
    ensures Outcome(p, agents, judge, percent, now).status != Pending <==>
            |p.votes.Keys + Members(agents)| >= |agents|
  {
    assert Ballots(p, agents, judge).Keys == p.votes.Keys + Members(agents);
  }

  /** Those who had voted keep their votes, every other agent votes as it judges, and nobody else votes. */
  ghost predicate BallotsOf(p: Proposal, agents: seq<Id>, judge: Judge, votes: map<Id, bool>) {
    forall a :: (a in votes <==> a in p.votes || a in agents) &&
                (a in votes ==> votes[a] == if a in p.votes then p.votes[a] else judge(a, p))
  }

  /**
   * With distinct voters every capability proposal of the round is decided, and approved exactly when there are as
   * many votes as it requires and those in favour are the given share of all.
   */
  lemma DistinctVotersDecide(p: Proposal, agents: seq<Id>, judge: Judge, percent: int, now: real)
    requires p.kind == CAPABILITY && p.status == Pending
    requires agents != [] && Distinct(agents)
    ensures var r := Outcome(p, agents, judge, percent, now); var votes := Ballots(p, agents, judge);
      r.votes == votes && r.status != Pending &&
      (r.status == Approved <==> |votes| >= p.required && 100 * Yes(votes) >= percent * |votes|) &&
      (p.required <= 1 ==> |votes| >= p.required)
    ensures BallotsOf(p, agents, judge, Outcome(p, agents, judge, percent, now).votes)
  {
    DistinctSize(agents);
    var named := Members(agents);
    assert Ballots(p, agents, judge).Keys == p.votes.Keys + named;
    SubsetSize(named, p.votes.Keys + named);
    assert agents[0] in named;
  }

  /** A name listed twice can keep a proposal nobody else voted on pending for ever. */
  lemma RepeatedNameStaysPending(p: Proposal, agents: seq<Id>, judge: Judge, percent: int, now: real)
    requires p.kind == CAPABILITY && p.status == Pending && p.votes.Keys <= Members(agents)
    requires agents != [] && !Distinct(agents)
    ensures var r := Outcome(p, agents, judge, percent, now);
      r.status == Pending && Outcome(r, agents, judge, percent, now) == r
  {
    RepeatShrinks(agents);
    var named := Members(agents);
    assert p.votes.Keys + named == named;
    DecidedIff(p, agents, judge, percent, now);
    var r := Outcome(p, agents, judge, percent, now);
    assert r.votes.Keys == named;
    DecidedIff(r, agents, judge, percent, now);
    assert Ballots(r, agents, judge) == r.votes;
  }

  // ---------- the round itself ----------

  /** What is reported of the proposals that were decided. */
  function Report(m: Store, ps: seq<Proposal>, agents: seq<Id>, judge: Judge, percent: int, now: real)
    : seq<FinalizedProposal>
  {
    if ps == [] then []
    else
      var rest, p := ps[..|ps| - 1], ps[|ps| - 1];
      Report(m, rest, agents, judge, percent, now) +
      ReportOn(AfterRound(m, rest, agents, judge, percent, now), p, agents, judge, percent)
  }

  function ReportOn(m: Store, p: Proposal, agents: seq<Id>, judge: Judge, percent: int): seq<FinalizedProposal> {
    var voted := WithBallots(m, p, agents, judge, percent);
    if p.kind == CAPABILITY && VoteTotal(voted, p.id) >= Voters(agents) then [Reported(voted, p.id, percent)] else []
  }

  function Reported(m: Store, id: Id, percent: int): FinalizedProposal {
    if id in m
    then FinalizedProposal(id, m[id].status == Pending && Approves(m[id], percent), Yes(m[id].votes),
                           |m[id].votes| - Yes(m[id].votes), |m[id].votes|)
    else FinalizedProposal(id, false, 0, 0, 0)
  }

  /** A report gives the status and the votes that its proposal has after the round. */
  ghost predicate Truthful(r: FinalizedProposal, n: Store) {
    r.id in n && n[r.id].status == (if r.approved then Approved else Rejected) && r.yes == Yes(n[r.id].votes) &&
    r.yes + r.no == r.total == |n[r.id].votes|
  }

  lemma ReportOnIsTruthful(m: Store, p: Proposal, agents: seq<Id>, judge: Judge, percent: int, now: real)
    requires p.id in m && m[p.id] == p && p.status == Pending
    ensures var rs := ReportOn(m, p, agents, judge, percent);
      (rs == [] <==> Outcome(p, agents, judge, percent, now).status == Pending) && |rs| <= 1 &&
      (rs != [] ==> rs[0].id == p.id && Truthful(rs[0], m[p.id := Outcome(p, agents, judge, percent, now)]))
  {
    BallotsCast(m, p, agents, judge, percent);
    var voted := p.(votes := Ballots(p, agents, judge));
    assert WithBallots(m, p, agents, judge, percent)[p.id] == voted;
  }

  /** Listed proposals: pending ones of the store, each once. */
  ghost predicate Listed(m: Store, ps: seq<Proposal>) {
    (forall p :: p in ps ==> p.id in m && m[p.id] == p && p.status == Pending) &&
    (forall i, j :: 0 <= i < j < |ps| ==> ps[i].id != ps[j].id)
  }

  ghost predicate Mentions(rs: seq<FinalizedProposal>, id: Id) {
    exists r :: r in rs && r.id == id
  }

  ghost predicate IdAmong(ps: seq<Proposal>, id: Id) {
    exists p :: p in ps && p.id == id
  }

  lemma LastTurn(m: Store, ps: seq<Proposal>, agents: seq<Id>, judge: Judge, percent: int, now: real)
    requires ps != [] && Listed(m, ps)
    ensures var rest, p := ps[..|ps| - 1], ps[|ps| - 1];
      var before := AfterRound(m, rest, agents, judge, percent, now);
      Listed(m, rest) && !IdAmong(rest, p.id) && p.id in before && before[p.id] == p && p.status == Pending &&
      AfterRound(m, ps, agents, judge, percent, now) == before[p.id := Outcome(p, agents, judge, percent, now)]
  {
    var rest, p := ps[..|ps| - 1], ps[|ps| - 1];
    assert ps == rest + [p];
    EachGetsItsOutcome(m, rest, agents, judge, percent, now);
    TreatedIsOutcome(AfterRound(m, rest, agents, judge, percent, now), p, agents, judge, percent, now);
  }

  /** The round reports its decisions truthfully. */
  lemma {:induction false} ReportIsTruthful(m: Store, ps: seq<Proposal>, agents: seq<Id>, judge: Judge, percent: int,
                                            now: real, r: FinalizedProposal)
    requires Listed(m, ps) && r in Report(m, ps, agents, judge, percent, now)
    ensures Truthful(r, AfterRound(m, ps, agents, judge, percent, now)) && IdAmong(ps, r.id)
  {
    if ps != [] {
      var rest, p := ps[..|ps| - 1], ps[|ps| - 1];
      var before := AfterRound(m, rest, agents, judge, percent, now);
      LastTurn(m, ps, agents, judge, percent, now);
      assert ps == rest + [p];
      if r in Report(m, rest, agents, judge, percent, now) {
        ReportIsTruthful(m, rest, agents, judge, percent, now, r);
        assert r.id != p.id;
      } else {
        ReportOnIsTruthful(before, p, agents, judge, percent, now);
        assert p in ps;
      }
    }
  }

  /** The round reports every proposal that it decided. */
  lemma {:induction false} DecisionsAreReported(m: Store, ps: seq<Proposal>, agents: seq<Id>, judge: Judge,
                                                percent: int, now: real, p: Proposal)
    requires Listed(m, ps) && p in ps && Outcome(p, agents, judge, percent, now).status != Pending
    ensures Mentions(Report(m, ps, agents, judge, percent, now), p.id)
  {
    var rest, last := ps[..|ps| - 1], ps[|ps| - 1];
    var before := AfterRound(m, rest, agents, judge, percent, now);
    LastTurn(m, ps, agents, judge, percent, now);
    assert ps == rest + [last];
    if p in rest {
      DecisionsAreReported(m, rest, agents, judge, percent, now, p);
      var r :| r in Report(m, rest, agents, judge, percent, now) && r.id == p.id;
      assert r in Report(m, ps, agents, judge, percent, now);
    } else {
      ReportOnIsTruthful(before, p, agents, judge, percent, now);
      var rs := ReportOn(before, p, agents, judge, percent);
      assert rs[0] in Report(m, ps, agents, judge, percent, now);
    }
  }

  /**
   * A round with distinct voters decides every capability proposal among the oldest pending ones, by its share of
   * votes in favour, and changes nothing else.
   */
  lemma RoundDecidesOldest(lines: seq<Proposal>, index: map<Id, nat>, agents: seq<Id>, judge: Judge, percent: int,
                           now: real, p: Proposal)
    requires IndexAgrees(lines, index) && agents != [] && Distinct(agents)
    requires p in Oldest(lines, ROUND_LIMIT) && p.kind == CAPABILITY
    ensures var n := AfterRound(Meaning(lines, index), Oldest(lines, ROUND_LIMIT), agents, judge, percent, now);
      var votes := Ballots(p, agents, judge);
      p.id in n && n[p.id].votes == votes && BallotsOf(p, agents, judge, votes) && n[p.id].finalized == Some(now) &&
      n[p.id].status == (if |votes| >= p.required && 100 * Yes(votes) >= percent * |votes| then Approved else Rejected)
    ensures var m := Meaning(lines, index);
      var n := AfterRound(m, Oldest(lines, ROUND_LIMIT), agents, judge, percent, now);
      n.Keys == m.Keys && forall id :: id in m && m[id] !in Oldest(lines, ROUND_LIMIT) ==> n[id] == m[id]
  {
    OldestArePending(lines, index, ROUND_LIMIT);
    EachGetsItsOutcome(Meaning(lines, index), Oldest(lines, ROUND_LIMIT), agents, judge, percent, now);
    DistinctVotersDecide(p, agents, judge, percent, now);
  }

  class CapabilityQuorum {
    const quorum: AgentQuorum
    const judge: Judge

    constructor (quorum: AgentQuorum, judge: Judge)
      ensures this.quorum == quorum && this.judge == judge
    {
      this.quorum, this.judge := quorum, judge;
    }

    method VoteOnPending(agents: seq<Id>, now: real) returns (finalized: seq<FinalizedProposal>)
      requires quorum.Valid()
      modifies quorum
      ensures quorum.Valid()
      ensures agents == [] ==> quorum.View() == old(quorum.View()) && finalized == []
      ensures agents != [] ==>
        var pending := Oldest(old(quorum.lines), ROUND_LIMIT);
        quorum.View() == AfterRound(old(quorum.View()), pending, agents, judge, quorum.percent, now) &&
        finalized == Report(old(quorum.View()), pending, agents, judge, quorum.percent, now)
    {
      finalized := [];
      if agents == [] {
        return;
      }
      ghost var before := quorum.View();
      var pending := quorum.GetPendingProposals(ROUND_LIMIT);
      var i := 0;
      while i < |pending|
        invariant 0 <= i <= |pending| && quorum.Valid()
        invariant quorum.View() == AfterRound(before, pending[..i], agents, judge, quorum.percent, now)
        invariant finalized == Report(before, pending[..i], agents, judge, quorum.percent, now)
      {
        var p := pending[i];
        assert pending[..i + 1][..i] == pending[..i];
        var report := Treat(p, agents, now);
        finalized := finalized + report;
        i := i + 1;
      }
      assert pending[..i] == pending;
    }

    method Treat(p: Proposal, agents: seq<Id>, now: real) returns (report: seq<FinalizedProposal>)
      requires quorum.Valid()
      modifies quorum
      ensures quorum.Valid()
      ensures quorum.View() == Treated(old(quorum.View()), p, agents, judge, quorum.percent, now)
      ensures report == ReportOn(old(quorum.View()), p, agents, judge, quorum.percent)
    {
      report := [];
      if p.kind != CAPABILITY {
        return;
      }
      CastBallots(p, agents);
      var yes, no := VotingStatus(p.id);
      var total := yes + no;
      if total >= Voters(agents) {
        var approved := quorum.FinalizeProposal(p.id, now);
        report := [FinalizedProposal(p.id, approved, yes, no, total)];
      }
    }

    method CastBallots(p: Proposal, agents: seq<Id>)
      requires quorum.Valid()
      modifies quorum
      ensures quorum.Valid()
      ensures quorum.View() == WithBallots(old(quorum.View()), p, agents, judge, quorum.percent)
    {
      ghost var before := quorum.View();
      var i := 0;
      while i < |agents|
        invariant 0 <= i <= |agents| && quorum.Valid()
        invariant quorum.View() == WithBallots(before, p, agents[..i], judge, quorum.percent)
      {
        var a := agents[i];
        assert agents[..i + 1][..i] == agents[..i];
        if a !in p.votes {
          var vote := judge(a, p);
          var _ := quorum.CastVote(p.id, a, vote);
        }
        i := i + 1;
      }
      assert agents[..i] == agents;
    }

    method VotingStatus(id: Id) returns (yes: nat, no: nat)
      requires quorum.Valid()
      ensures id in quorum.View() ==> yes == Yes(quorum.View()[id].votes) && yes + no == |quorum.View()[id].votes|
      ensures id !in quorum.View() ==> yes == 0 && no == 0
    {
      var p := quorum.GetProposal(id);
      if p.None? {
        return 0, 0;
      }
      var total;
      yes, total := quorum.CountVotes(p.value.votes);
      YesBound(p.value.votes);
      no := total - yes;
    }
  }
}
