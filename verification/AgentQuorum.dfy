/** Proposals and votes kept as lines of a log with an index of rows, and what that log means as a map. */
module AgentQuorum {
  import opened Wrappers
  import opened Sorting
  import Sequences

  type Id = string

  /** Shares of the vote are in hundredths. */
  const DEFAULT_PERCENT: int := 66
  const LIFETIME: real := 604800.0

  datatype Status = Pending | Approved | Rejected | Withdrawn

  datatype Proposal = Proposal(id: Id, proposer: Id, kind: string, description: string, payload: map<string, string>,
                               votes: map<Id, bool>, required: nat, status: Status, created: real, expires: real,
                               finalized: Option<real>)

  /** What the log means. */
  type Store = map<Id, Proposal>

  function Fresh(id: Id, proposer: Id, kind: string, description: string, payload: map<string, string>, now: real)
    : Proposal
  {
    Proposal(id, proposer, kind, description, payload, map[], 1, Pending, now, now + LIFETIME, None)
  }

  function InFavour(votes: map<Id, bool>): set<Id> {
    set a | a in votes && votes[a]
  }

  function Yes(votes: map<Id, bool>): nat {
    |InFavour(votes)|
  }

  /** Enough votes, and enough of them in favour. */
  predicate Approves(p: Proposal, percent: int) {
    |p.votes| >= p.required && 100 * Yes(p.votes) >= percent * |p.votes|
  }

  function WithVote(p: Proposal, voter: Id, vote: bool): Proposal {
    p.(votes := p.votes[voter := vote])
  }

  function Decided(p: Proposal, percent: int, now: real): Proposal {
    p.(status := if Approves(p, percent) then Approved else Rejected, finalized := Some(now))
  }

  // ---------- the operations on the map ----------

  datatype Step =
    | Propose(proposal: Proposal)
    | Vote(id: Id, voter: Id, vote: bool)
    | Finalize(id: Id, now: real)
    | Withdraw(id: Id, who: Id)

  function Apply(m: Store, step: Step, percent: int): Store {
    match step
    case Propose(p) => m[p.id := p]
    case Vote(id, voter, vote) => if id in m then m[id := WithVote(m[id], voter, vote)] else m
    case Finalize(id, now) => (
      if id in m && m[id].status == Pending then m[id := Decided(m[id], percent, now)] else m)
    case Withdraw(id, who) => (
      if id in m && m[id].status == Pending && m[id].proposer == who then m[id := m[id].(status := Withdrawn)] else m)
  }

  function Target(step: Step): Id {
    match step
    case Propose(p) => p.id
    case Vote(id, _, _) => id
    case Finalize(id, _) => id
    case Withdraw(id, _) => id
  }

  /** A proposal comes in new and pending. */
  predicate Possible(m: Store, step: Step) {
    step.Propose? ==> step.proposal.id !in m && step.proposal.status == Pending
  }

  function Run(m: Store, steps: seq<Step>, percent: int): Store {
    if steps == [] then m else Apply(Run(m, steps[..|steps| - 1], percent), steps[|steps| - 1], percent)
  }

  predicate PossibleRun(m: Store, steps: seq<Step>, percent: int) {
    steps == [] ||
    (PossibleRun(m, steps[..|steps| - 1], percent) &&
     Possible(Run(m, steps[..|steps| - 1], percent), steps[|steps| - 1]))
  }

  /** Over every sequential run a proposal that is no longer pending keeps its status, its time and its author. */
  lemma {:induction false} PendingLeftOnce(m: Store, steps: seq<Step>, percent: int, id: Id)
    requires PossibleRun(m, steps, percent) && id in m && m[id].status != Pending
    ensures var n := Run(m, steps, percent);
      id in n && n[id].(votes := map[]) == m[id].(votes := map[])
  {
    if steps != [] {
      PendingLeftOnce(m, steps[..|steps| - 1], percent, id);
    }
  }

  /** A run that names a proposal in none of its steps leaves it as it is. */
  lemma {:induction false} OthersUntouched(m: Store, steps: seq<Step>, percent: int, id: Id)
    requires forall i :: 0 <= i < |steps| ==> Target(steps[i]) != id
    ensures id in Run(m, steps, percent) <==> id in m
    ensures id in m ==> Run(m, steps, percent)[id] == m[id]
  {
    if steps != [] {
      OthersUntouched(m, steps[..|steps| - 1], percent, id);
      assert Target(steps[|steps| - 1]) != id;
    }
  }

  /** The step by which a proposal was decided, and the votes it had then. */
  ghost predicate WonAt(m: Store, steps: seq<Step>, percent: int, id: Id, k: nat) {
    k < |steps| && steps[k].Finalize? && steps[k].id == id &&
    (var before := Run(m, steps[..k], percent);
     id in before && before[id].status == Pending && Approves(before[id], percent))
  }

  /** Approved means that at the moment of deciding there were enough votes and enough in favour. */
  lemma {:induction false} ApprovedWasEarned(m: Store, steps: seq<Step>, percent: int, id: Id) returns (k: nat)
    requires PossibleRun(m, steps, percent)
    requires id in m ==> m[id].status == Pending
    requires id in Run(m, steps, percent) && Run(m, steps, percent)[id].status == Approved
    ensures WonAt(m, steps, percent, id, k)
  {
    assert steps != [];
    var n := |steps| - 1;
    var before := Run(m, steps[..n], percent);
    if id in before && before[id].status == Approved {
      k := ApprovedWasEarned(m, steps[..n], percent, id);
      assert steps[..n][..k] == steps[..k];
    } else {
      k := n;
    }
  }

  // ---------- votes after the decision ----------

  /** The votes bear the decision out. */
  predicate BornOut(p: Proposal, percent: int) {
    (p.status == Approved ==> Approves(p, percent)) && (p.status == Rejected ==> !Approves(p, percent))
  }

  predicate IsDecision(p: Proposal) {
    p.status == Approved || p.status == Rejected
  }

  /** One when the voter is new, and one when the voter was in favour. */
  function Newly(votes: map<Id, bool>, voter: Id): nat {
    if voter in votes then 0 else 1
  }

  function Earlier(votes: map<Id, bool>, voter: Id): nat {
    if voter in votes && votes[voter] then 1 else 0
  }

  lemma InFavourAfterVote(votes: map<Id, bool>, voter: Id, vote: bool)
    ensures InFavour(votes[voter := vote]) == if vote then InFavour(votes) + {voter} else InFavour(votes) - {voter}
  {
  }

  lemma YesAfterVote(votes: map<Id, bool>, voter: Id, vote: bool)
    ensures Yes(votes[voter := vote]) == Yes(votes) - Earlier(votes, voter) + (if vote then 1 else 0)
    ensures |votes[voter := vote]| == |votes| + Newly(votes, voter)
  {
    var yes := InFavour(votes);
    InFavourAfterVote(votes, voter, vote);
    assert voter in yes <==> Earlier(votes, voter) == 1;
    Sequences.PutAndTakeOut(yes, voter);
    Sequences.PutAndTakeOut(votes.Keys, voter);
    assert votes[voter := vote].Keys == votes.Keys + {voter};
  }

  lemma YesBound(votes: map<Id, bool>)
    ensures Yes(votes) <= |votes|
    ensures (forall a :: a in votes ==> votes[a]) ==> Yes(votes) == |votes|
    ensures (forall a :: a in votes ==> !votes[a]) ==> Yes(votes) == 0
  {
    Sequences.SubsetSize(InFavour(votes), votes.Keys);
    if forall a :: a in votes ==> votes[a] {
      assert InFavour(votes) == votes.Keys;
    }
    if forall a :: a in votes ==> !votes[a] {
      assert InFavour(votes) == {};
    }
  }

  /** With no more than a hundred in a hundred, or no less than none, the share is settled beforehand. */
  lemma ShareBounds(percent: int, yes: nat, all: nat)
    requires yes <= all
    ensures percent <= 0 ==> 100 * yes >= percent * all
    ensures percent > 100 && all > 0 ==> 100 * yes < percent * all
  {
    if percent <= 0 {
      assert percent * all <= 0;
    }
    if percent > 100 {
      assert percent * all >= 101 * all;
    }
  }

  /** What a new vote, or a second one, in favour does to a share that was reached. */
  lemma ShareAfterYes(percent: int, yes: nat, all: nat, earlier: nat, newly: nat)
    requires earlier <= yes <= all && earlier + newly <= 1 && (newly == 0 ==> all > 0)
    requires 100 * yes >= percent * all
    ensures 100 * (yes - earlier + 1) >= percent * (all + newly) <==>
            percent <= 100 || 100 * (yes - earlier) >= percent * (all + newly)
  {
    assert percent * (all + newly) == percent * all + percent * newly;
    if percent > 100 && all > 0 {
      ShareBounds(percent, yes, all);
    }
  }

  /**
   * When one vote after the decision leaves it borne out. An approval: the vote is in favour, or the share is
   * reached without the voter's earlier vote. A rejection: there are still too few votes, or the share is still
   * missed.
   */
  lemma LateVoteKeepsIff(m: Store, percent: int, id: Id, voter: Id, vote: bool)
    requires id in m && IsDecision(m[id]) && BornOut(m[id], percent)
    ensures var p, n := m[id], Apply(m, Vote(id, voter, vote), percent);
      var yes, all := Yes(p.votes) - Earlier(p.votes, voter), |p.votes| + Newly(p.votes, voter);
      n[id].status == p.status &&
      (p.status == Approved ==> (
        BornOut(n[id], percent) <==> (vote && percent <= 100) || 100 * yes >= percent * all)) &&
      (p.status == Rejected ==> (
        BornOut(n[id], percent) <==> all < p.required || 100 * (yes + if vote then 1 else 0) < percent * all))
  {
    var p := m[id];
    YesAfterVote(p.votes, voter, vote);
    YesBound(p.votes);
    assert Earlier(p.votes, voter) == 1 ==> voter in InFavour(p.votes);
    assert Newly(p.votes, voter) == 0 ==> voter in p.votes.Keys;
    if p.status == Approved && vote {
      ShareAfterYes(percent, Yes(p.votes), |p.votes|, Earlier(p.votes, voter), Newly(p.votes, voter));
    }
  }

  lemma RunSnoc(m: Store, steps: seq<Step>, step: Step, percent: int)
    ensures Run(m, steps + [step], percent) == Apply(Run(m, steps, percent), step, percent)
    ensures PossibleRun(m, steps + [step], percent) <==>
            PossibleRun(m, steps, percent) && Possible(Run(m, steps, percent), step)
  {
    assert (steps + [step])[..|steps|] == steps;
  }

  /** Over every run a proposal stays, asks for the same number of votes, and loses none. */
  lemma {:induction false} VotesStay(m: Store, steps: seq<Step>, percent: int, id: Id)
    requires PossibleRun(m, steps, percent) && id in m
    ensures var n := Run(m, steps, percent);
      id in n && n[id].required == m[id].required && m[id].votes.Keys <= n[id].votes.Keys
  {
    if steps != [] {
      VotesStay(m, steps[..|steps| - 1], percent, id);
    }
  }

  /** A run made of votes on one proposal. */
  ghost predicate Ballots(m: Store, steps: seq<Step>, percent: int, id: Id) {
    PossibleRun(m, steps, percent) && id in Run(m, steps, percent) &&
    forall i :: 0 <= i < |steps| ==> steps[i].Vote? && steps[i].id == id
  }

  /** In one more vote. */
  lemma OneMoreBallot(m: Store, steps: seq<Step>, percent: int, id: Id, voter: Id, vote: bool) returns (more: seq<Step>)
    requires Ballots(m, steps, percent, id)
    ensures Ballots(m, more, percent, id)
    ensures var p, q := Run(m, steps, percent)[id], Run(m, more, percent)[id];
      q == WithVote(p, voter, vote)
  {
    more := steps + [Vote(id, voter, vote)];
    RunSnoc(m, steps, Vote(id, voter, vote), percent);
  }

  /** Those who voted vote again, one by one, until all votes are `vote`. */
  lemma AllVoteAgain(m: Store, percent: int, id: Id, vote: bool) returns (steps: seq<Step>)
    requires id in m
    ensures Ballots(m, steps, percent, id)
    ensures var p := Run(m, steps, percent)[id];
      p.votes.Keys == m[id].votes.Keys && (forall a :: a in p.votes ==> p.votes[a] == vote) &&
      p.(votes := map[]) == m[id].(votes := map[])
  {
    steps := [];
    var todo := m[id].votes.Keys;
    while todo != {}
      invariant Ballots(m, steps, percent, id) && todo <= m[id].votes.Keys
      invariant var p := Run(m, steps, percent)[id];
        p.votes.Keys == m[id].votes.Keys && (forall a :: a in p.votes && a !in todo ==> p.votes[a] == vote) &&
        p.(votes := map[]) == m[id].(votes := map[])
      decreases |todo|
    {
      var a :| a in todo;
      steps := OneMoreBallot(m, steps, percent, id, a, vote);
      todo := todo - {a};
    }
  }

  lemma {:induction false} LongerThanAll(names: set<Id>) returns (n: nat)
    ensures forall a :: a in names ==> |a| < n
    decreases |names|
  {
    if names == {} {
      n := 0;
    } else {
      var a :| a in names;
      n := LongerThanAll(names - {a});
      n := if |a| < n then n else |a| + 1;
    }
  }

  lemma Newcomer(names: set<Id>) returns (a: Id)
    ensures a !in names
  {
    var n := LongerThanAll(names);
    a := seq(n, i => 'x');
  }

  /** Those who voted and then newcomers all vote the same, until there are `enough` votes. */
  lemma EnoughVoteAlike(m: Store, percent: int, id: Id, vote: bool, enough: nat) returns (steps: seq<Step>)
    requires id in m
    ensures Ballots(m, steps, percent, id)
    ensures var p := Run(m, steps, percent)[id];
      |p.votes| >= enough && (forall a :: a in p.votes ==> p.votes[a] == vote) &&
      p.(votes := map[]) == m[id].(votes := map[])
  {
    steps := AllVoteAgain(m, percent, id, vote);
    while |Run(m, steps, percent)[id].votes| < enough
      invariant Ballots(m, steps, percent, id)
      invariant var p := Run(m, steps, percent)[id];
        (forall a :: a in p.votes ==> p.votes[a] == vote) && p.(votes := map[]) == m[id].(votes := map[])
      decreases enough - |Run(m, steps, percent)[id].votes|
    {
      var p := Run(m, steps, percent)[id];
      var a := Newcomer(p.votes.Keys);
      steps := OneMoreBallot(m, steps, percent, id, a, vote);
      YesAfterVote(p.votes, a, vote);
    }
  }

  /** A run at whose end the votes do not bear the decision out. */
  ghost predicate Contradicted(m: Store, steps: seq<Step>, percent: int, id: Id) {
    PossibleRun(m, steps, percent) && id in Run(m, steps, percent) && !BornOut(Run(m, steps, percent)[id], percent)
  }

  /** At such a percentage no votes can contradict the decision. */
  predicate Unassailable(status: Status, percent: int) {
    if status == Approved then percent <= 0 else percent > 100
  }

  lemma NeverContradicted(m: Store, steps: seq<Step>, percent: int, id: Id)
    requires id in m && IsDecision(m[id]) && BornOut(m[id], percent) && Unassailable(m[id].status, percent)
    requires PossibleRun(m, steps, percent)
    ensures !Contradicted(m, steps, percent, id)
  {
    PendingLeftOnce(m, steps, percent, id);
    VotesStay(m, steps, percent, id);
    var p, q := m[id], Run(m, steps, percent)[id];
    YesBound(p.votes);
    YesBound(q.votes);
    ShareBounds(percent, Yes(p.votes), |p.votes|);
    ShareBounds(percent, Yes(q.votes), |q.votes|);
    Sequences.SubsetSize(p.votes.Keys, q.votes.Keys);
    assert q.status == p.(votes := map[]).status;
  }

  lemma UnanimousShare(percent: int, all: nat)
    requires all > 0
    ensures 100 * all >= percent * all <==> percent <= 100
    ensures 0 >= percent * all <==> percent <= 0
  {
    assert 100 * all - percent * all == (100 - percent) * all;
  }

  lemma Contradiction(m: Store, percent: int, id: Id) returns (steps: seq<Step>)
    requires id in m && IsDecision(m[id]) && !Unassailable(m[id].status, percent)
    ensures Ballots(m, steps, percent, id) && Contradicted(m, steps, percent, id)
  {
    var p := m[id];
    steps := EnoughVoteAlike(m, percent, id, p.status == Rejected, p.required + 1);
    var q := Run(m, steps, percent)[id];
    YesBound(q.votes);
    UnanimousShare(percent, |q.votes|);
    assert q.status == p.(votes := map[]).status && q.required == p.(votes := map[]).required;
  }

  /**
   * A vote is taken at any time, so a run can contradict a decision that the votes bear out: an approval exactly
   * when the percentage is positive, a rejection exactly when it is at most a hundred. Votes alone do it.
   */
  lemma LateVotesCanContradict(m: Store, percent: int, id: Id)
    requires id in m && IsDecision(m[id]) && BornOut(m[id], percent)
    ensures (exists steps :: Contradicted(m, steps, percent, id)) <==>
            if m[id].status == Approved then percent > 0 else percent <= 100
    ensures (exists steps :: Contradicted(m, steps, percent, id)) <==>
            exists steps :: Ballots(m, steps, percent, id) && Contradicted(m, steps, percent, id)
  {
    if Unassailable(m[id].status, percent) {
      forall steps | PossibleRun(m, steps, percent) ensures !Contradicted(m, steps, percent, id) {
        NeverContradicted(m, steps, percent, id);
      }
    } else {
      var steps := Contradiction(m, percent, id);
    }
  }

  // ---------- finalising and withdrawing in two lock sections ----------

  /** What a thread has decided to write after its check. */
  datatype Intent = WriteDecision(id: Id, approve: bool, now: real) | WriteWithdrawal(id: Id)

  datatype Shared = Shared(store: Store, intents: map<nat, Intent>)

  datatype Section =
    | CheckFinalize(thread: nat, id: Id, now: real)
    | CheckWithdraw(thread: nat, id: Id, who: Id)
    | Write(thread: nat)
    | Ballot(id: Id, voter: Id, vote: bool)

  function Written(m: Store, intent: Intent): Store {
    if intent.id !in m then m
    else
      match intent
      case WriteDecision(id, approve, now) =>
        m[id := m[id].(status := if approve then Approved else Rejected, finalized := Some(now))]
      case WriteWithdrawal(id) => m[id := m[id].(status := Withdrawn)]
  }

  function Enter(s: Shared, section: Section, percent: int): Shared {
    match section
    case CheckFinalize(t, id, now) => (
      if id in s.store && s.store[id].status == Pending
      then s.(intents := s.intents[t := WriteDecision(id, Approves(s.store[id], percent), now)])
      else s)
    case CheckWithdraw(t, id, who) => (
      if id in s.store && s.store[id].status == Pending && s.store[id].proposer == who
      then s.(intents := s.intents[t := WriteWithdrawal(id)])
      else s)
    case Write(t) => (
      if t in s.intents then Shared(Written(s.store, s.intents[t]), s.intents - {t}) else s)
    case Ballot(id, voter, vote) => s.(store := Apply(s.store, Vote(id, voter, vote), percent))
  }

  function Sections(s: Shared, sections: seq<Section>, percent: int): Shared {
    if sections == [] then s
    else Enter(Sections(s, sections[..|sections| - 1], percent), sections[|sections| - 1], percent)
  }

  /** When a check is followed at once by its write, the two are the sequential operation. */
  lemma AtomicIsSequential(s: Shared, t: nat, id: Id, who: Id, now: real, percent: int)
    requires t !in s.intents
    ensures Enter(Enter(s, CheckFinalize(t, id, now), percent), Write(t), percent) ==
            s.(store := Apply(s.store, Finalize(id, now), percent))
    ensures Enter(Enter(s, CheckWithdraw(t, id, who), percent), Write(t), percent) ==
            s.(store := Apply(s.store, Withdraw(id, who), percent))
  {
    assert (s.intents[t := WriteWithdrawal(id)]) - {t} == s.intents;
    if id in s.store {
      assert s.intents[t := WriteDecision(id, Approves(s.store[id], percent), now)] - {t} == s.intents;
    }
  }

  /** No other thread has checked the proposal and not written yet. */
  predicate Unrivalled(s: Shared, section: Section) {
    section.CheckFinalize? || section.CheckWithdraw? ==>
      forall t :: t in s.intents && t != section.thread ==> s.intents[t].id != section.id
  }

  predicate UnrivalledRun(s: Shared, sections: seq<Section>, percent: int) {
    sections == [] ||
    (UnrivalledRun(s, sections[..|sections| - 1], percent) &&
     Unrivalled(Sections(s, sections[..|sections| - 1], percent), sections[|sections| - 1]))
  }

  ghost predicate IntentsCurrent(s: Shared) {
    (forall t :: t in s.intents ==> s.intents[t].id in s.store && s.store[s.intents[t].id].status == Pending) &&
    (forall t, u :: t in s.intents && u in s.intents && s.intents[t].id == s.intents[u].id ==> t == u)
  }

  /** Without rival checks every interleaving leaves pending at most once. */
  lemma {:induction false} UnrivalledDecidesOnce(s: Shared, sections: seq<Section>, percent: int, id: Id)
    requires IntentsCurrent(s) && UnrivalledRun(s, sections, percent)
    ensures IntentsCurrent(Sections(s, sections, percent))
    ensures id in s.store && s.store[id].status != Pending ==>
      id in Sections(s, sections, percent).store &&
      Sections(s, sections, percent).store[id].status == s.store[id].status
  {
    if sections != [] {
      UnrivalledDecidesOnce(s, sections[..|sections| - 1], percent, id);
      var before := Sections(s, sections[..|sections| - 1], percent);
      SectionKeepsCurrent(before, sections[|sections| - 1], percent);
    }
  }

  lemma SectionKeepsCurrent(s: Shared, section: Section, percent: int)
    requires IntentsCurrent(s) && Unrivalled(s, section)
    ensures IntentsCurrent(Enter(s, section, percent))
    ensures forall id :: id in s.store && s.store[id].status != Pending ==>
      id in Enter(s, section, percent).store && Enter(s, section, percent).store[id].status == s.store[id].status
  {
  }

  function StatusWritten(intent: Intent): Status {
    match intent
    case WriteDecision(_, approve, _) => if approve then Approved else Rejected
    case WriteWithdrawal(_) => Withdrawn
  }

  /** Somebody has checked the proposal and is about to write another status. */
  ghost predicate Overtaken(s: Shared, id: Id) {
    id in s.store &&
    exists t :: t in s.intents && s.intents[t].id == id && StatusWritten(s.intents[t]) != s.store[id].status
  }

  ghost predicate Changes(s: Shared, sections: seq<Section>, percent: int, id: Id) {
    id in s.store && id in Sections(s, sections, percent).store &&
    Sections(s, sections, percent).store[id].status != s.store[id].status
  }

  /** Without such an intent a decided status stays, and no section brings one. */
  lemma {:induction false} NotOvertakenStays(s: Shared, sections: seq<Section>, percent: int, id: Id)
    requires id in s.store && s.store[id].status != Pending && !Overtaken(s, id)
    ensures var t := Sections(s, sections, percent);
      id in t.store && t.store[id].status == s.store[id].status && !Overtaken(t, id)
  {
    if sections != [] {
      NotOvertakenStays(s, sections[..|sections| - 1], percent, id);
      SectionNotOvertaken(Sections(s, sections[..|sections| - 1], percent), sections[|sections| - 1], percent, id);
    }
  }

  lemma SectionNotOvertaken(s: Shared, section: Section, percent: int, id: Id)
    requires id in s.store && s.store[id].status != Pending && !Overtaken(s, id)
    ensures var t := Enter(s, section, percent);
      id in t.store && t.store[id].status == s.store[id].status && !Overtaken(t, id)
  {
    var t := Enter(s, section, percent);
    forall u | u in t.intents && t.intents[u].id == id ensures StatusWritten(t.intents[u]) == s.store[id].status {
      assert u in s.intents && s.intents[u] == t.intents[u];
    }
  }

  /** A decided status can still be changed exactly when a check of the proposal is waiting to write another one. */
  lemma DecidedCanChangeIff(s: Shared, percent: int, id: Id)
    requires id in s.store && s.store[id].status != Pending
    ensures (exists sections :: Changes(s, sections, percent, id)) <==> Overtaken(s, id)
  {
    if sections :| Changes(s, sections, percent, id) {
      if !Overtaken(s, id) {
        NotOvertakenStays(s, sections, percent, id);
      }
    }
    if Overtaken(s, id) {
      var t :| t in s.intents && s.intents[t].id == id && StatusWritten(s.intents[t]) != s.store[id].status;
      assert [Write(t)][..0] == [] && Sections(s, [], percent) == s;
      assert Sections(s, [Write(t)], percent) == Enter(s, Write(t), percent);
      assert Changes(s, [Write(t)], percent, id);
    }
  }

  /** For every pending proposal there is an interleaving that decides it and then withdraws it. */
  lemma RaceLeavesPendingTwice(m: Store, id: Id, now: real, percent: int)
    requires id in m && m[id].status == Pending
    ensures var s := Enter(Shared(m, map[]), CheckFinalize(1, id, now), percent);
      var s' := Enter(s, CheckWithdraw(2, id, m[id].proposer), percent);
      var decided := Enter(s', Write(1), percent);
      var end := Enter(decided, Write(2), percent);
      decided.store[id].status == (if Approves(m[id], percent) then Approved else Rejected) &&
      end.store[id].status == Withdrawn && end.store[id].finalized == Some(now)
  {
  }

  // ---------- the log and its index ----------

  ghost predicate IndexAgrees(lines: seq<Proposal>, index: map<Id, nat>) {
    (forall i :: 0 <= i < |lines| ==> lines[i].id in index && index[lines[i].id] == i) &&
    (forall id :: id in index ==> index[id] < |lines| && lines[index[id]].id == id)
  }

  ghost function Meaning(lines: seq<Proposal>, index: map<Id, nat>): Store
    requires IndexAgrees(lines, index)
  {
    map id | id in index :: lines[index[id]]
  }

  lemma RowRewritten(lines: seq<Proposal>, index: map<Id, nat>, id: Id, p: Proposal)
    requires IndexAgrees(lines, index) && id in index && p.id == id
    ensures IndexAgrees(lines[index[id] := p], index)
    ensures Meaning(lines[index[id] := p], index) == Meaning(lines, index)[id := p]
  {
  }

  lemma RowAppended(lines: seq<Proposal>, index: map<Id, nat>, p: Proposal)
    requires IndexAgrees(lines, index) && p.id !in index
    ensures IndexAgrees(lines + [p], index[p.id := |lines|])
    ensures Meaning(lines + [p], index[p.id := |lines|]) == Meaning(lines, index)[p.id := p]
  {
  }

  function Created(p: Proposal): real {
    p.created
  }

  function PendingLines(lines: seq<Proposal>): seq<Proposal> {
    if lines == [] then []
    else
      PendingLines(lines[..|lines| - 1]) +
      if lines[|lines| - 1].status == Pending then [lines[|lines| - 1]] else []
  }

  /** The oldest pending proposals, at most `limit` of them. */
  function Oldest(lines: seq<Proposal>, limit: nat): seq<Proposal> {
    var sorted := SortAsc(PendingLines(lines), Created);
    if |sorted| > limit then sorted[..limit] else sorted
  }

  lemma {:induction false} PendingLinesFacts(lines: seq<Proposal>, index: map<Id, nat>)
    requires IndexAgrees(lines, index)
    ensures forall p :: p in PendingLines(lines) <==> p in lines && p.status == Pending
    ensures forall i, j :: 0 <= i < j < |PendingLines(lines)| ==>
      index[PendingLines(lines)[i].id] < index[PendingLines(lines)[j].id]
  {
    PendingRows(lines, index, |lines|);
    assert lines[..|lines|] == lines;
  }

  lemma {:induction false} PendingRows(lines: seq<Proposal>, index: map<Id, nat>, n: nat)
    requires IndexAgrees(lines, index) && n <= |lines|
    ensures var ps := PendingLines(lines[..n]);
      (forall p :: p in ps <==> p in lines[..n] && p.status == Pending) &&
      (forall i :: 0 <= i < |ps| ==> index[ps[i].id] < n) &&
      (forall i, j :: 0 <= i < j < |ps| ==> index[ps[i].id] < index[ps[j].id])
  {
    if n > 0 {
      PendingRows(lines, index, n - 1);
      assert lines[..n][..n - 1] == lines[..n - 1];
      assert lines[..n] == lines[..n - 1] + [lines[n - 1]];
      forall p | p in lines[..n - 1] ensures p.id in index {
      }
    }
  }

  lemma SortedPending(lines: seq<Proposal>, index: map<Id, nat>)
    requires IndexAgrees(lines, index)
    ensures var sorted := SortAsc(PendingLines(lines), Created);
      (forall p :: p in sorted <==> p in lines && p.status == Pending) &&
      (forall i, j :: 0 <= i < j < |sorted| ==> sorted[i] != sorted[j]) && Sorted(sorted, Created)
  {
    var pending := PendingLines(lines);
    var sorted := SortAsc(pending, Created);
    PendingLinesFacts(lines, index);
    SortAscSorts(pending, Created);
    forall i, j | 0 <= i < j < |pending| ensures pending[i] != pending[j] {
      assert index[pending[i].id] < index[pending[j].id];
    }
    PermutationDistinct(sorted, pending);
    forall p ensures p in sorted <==> p in pending {
      PermutationMembers(sorted, pending, p);
    }
  }

  /** The oldest pending proposals are pending proposals of the log, each once and in order of age. */
  lemma OldestArePending(lines: seq<Proposal>, index: map<Id, nat>, limit: nat)
    requires IndexAgrees(lines, index)
    ensures var ps := Oldest(lines, limit); var m := Meaning(lines, index);
      (forall p :: p in ps ==> p.id in m && m[p.id] == p && p.status == Pending) &&
      (forall i, j :: 0 <= i < j < |ps| ==> ps[i].id != ps[j].id && ps[i].created <= ps[j].created)
  {
    SortedPending(lines, index);
    var sorted, ps := SortAsc(PendingLines(lines), Created), Oldest(lines, limit);
    forall i | 0 <= i < |ps| ensures ps[i] in lines && ps[i].status == Pending {
      assert ps[i] == sorted[i] && sorted[i] in sorted;
    }
    forall i, j | 0 <= i < j < |ps| ensures ps[i].id != ps[j].id && ps[i].created <= ps[j].created {
      assert ps[i] in lines && ps[j] in lines && sorted[i] != sorted[j];
      assert Created(sorted[i]) <= Created(sorted[j]);
    }
  }

  /** Unless there are fewer, they are as many as asked for, and none left out is older than one of them. */
  lemma OldestAreOldest(lines: seq<Proposal>, index: map<Id, nat>, limit: nat, id: Id)
    requires IndexAgrees(lines, index) && id in index && lines[index[id]].status == Pending
    ensures var ps := Oldest(lines, limit); var left := Meaning(lines, index)[id];
      left in ps || (|ps| == limit && forall p :: p in ps ==> p.created <= left.created)
  {
    SortedPending(lines, index);
    var sorted, ps, left := SortAsc(PendingLines(lines), Created), Oldest(lines, limit), lines[index[id]];
    assert left in lines;
    var k :| 0 <= k < |sorted| && sorted[k] == left;
    if k >= |ps| {
      forall i | 0 <= i < |ps| ensures ps[i].created <= left.created {
        assert ps[i] == sorted[i] && Created(sorted[i]) <= Created(sorted[k]);
      }
    } else {
      assert ps[k] == left;
    }
  }

  // ---------- the store itself ----------

  ghost function InFavourAmong(votes: map<Id, bool>, voters: set<Id>): set<Id> {
    set a | a in voters && a in votes && votes[a]
  }

  lemma OneMoreCounted(votes: map<Id, bool>, counted: set<Id>, a: Id)
    requires a in votes && a !in counted
    ensures |InFavourAmong(votes, counted + {a})| == |InFavourAmong(votes, counted)| + if votes[a] then 1 else 0
  {
    if votes[a] {
      assert InFavourAmong(votes, counted + {a}) == InFavourAmong(votes, counted) + {a};
    } else {
      assert InFavourAmong(votes, counted + {a}) == InFavourAmong(votes, counted);
    }
  }

  class AgentQuorum {
    const percent: int
    var lines: seq<Proposal>
    var index: map<Id, nat>
    var history: seq<(Id, Id, bool)>

    constructor (percent: int)
      ensures Valid() && View() == map[] && this.percent == percent && history == []
    {
      this.percent := percent;
      lines, index, history := [], map[], [];
    }

    ghost predicate Valid()
      reads this
    {
      IndexAgrees(lines, index)
    }

    ghost function View(): Store
      requires Valid()
      reads this
    {
      Meaning(lines, index)
    }

    method Propose(id: Id, proposer: Id, kind: string, description: string, payload: map<string, string>, now: real)
      requires Valid() && id !in index
      modifies this
      ensures Valid()
      ensures View() == Apply(old(View()), Step.Propose(Fresh(id, proposer, kind, description, payload, now)), percent)
      ensures View() == old(View())[id := Proposal(id, proposer, kind, description, payload, map[], 1, Pending, now,
                                                    now + 604800.0, None)]
      ensures history == old(history)
    {
      var record := Fresh(id, proposer, kind, description, payload, now);
      RowAppended(lines, index, record);
      lines := lines + [record];
      index := index[id := |lines| - 1];
    }

    method GetProposal(id: Id) returns (p: Option<Proposal>)
      requires Valid()
      ensures p == if id in View() then Some(View()[id]) else None
    {
      if id !in index || index[id] >= |lines| {
        return None;
      }
      return Some(lines[index[id]]);
    }

    /** One line is written again; all others stay as they are. */
    method Rewrite(id: Id, p: Proposal)
      requires Valid() && id in index && p.id == id
      modifies this`lines
      ensures Valid() && View() == old(View())[id := p]
    {
      RowRewritten(lines, index, id, p);
      lines := lines[index[id] := p];
    }

    method CastVote(id: Id, voter: Id, vote: bool) returns (ok: bool)
      requires Valid()
      modifies this
      ensures Valid() && View() == Apply(old(View()), Step.Vote(id, voter, vote), percent)
      ensures ok <==> id in old(View())
      ensures history == old(history) + if ok then [(id, voter, vote)] else []
      ensures View() == if !ok then old(View())
                        else old(View())[id := old(View())[id].(votes := old(View())[id].votes[voter := vote])]
    {
      if id !in index {
        return false;
      }
      Rewrite(id, WithVote(lines[index[id]], voter, vote));
      history := history + [(id, voter, vote)];
      return true;
    }

    /** The check and the write, when nothing comes between them. */
    method FinalizeProposal(id: Id, now: real) returns (approved: bool)
      requires Valid()
      modifies this
      ensures Valid() && View() == Apply(old(View()), Step.Finalize(id, now), percent) && history == old(history)
      ensures approved <==>
                id in old(View()) && old(View())[id].status == Pending &&
                |old(View())[id].votes| >= old(View())[id].required &&
                100 * Yes(old(View())[id].votes) >= percent * |old(View())[id].votes|
      ensures View() == if id !in old(View()) || old(View())[id].status != Pending then old(View())
                        else old(View())[id := old(View())[id].(status := if approved then Approved else Rejected,
                                                                finalized := Some(now))]
    {
      var p := GetProposal(id);
      if p.None? || p.value.status != Pending {
        return false;
      }
      var yes, total := CountVotes(p.value.votes);
      approved := total >= p.value.required && 100 * yes >= percent * total;
      Rewrite(id, p.value.(status := if approved then Approved else Rejected, finalized := Some(now)));
    }

    method CountVotes(votes: map<Id, bool>) returns (yes: nat, total: nat)
      ensures yes == Yes(votes) && total == |votes|
    {
      yes, total := 0, 0;
      var counted: set<Id> := {};
      while votes.Keys - counted != {}
        invariant counted <= votes.Keys && yes == |InFavourAmong(votes, counted)| && total == |counted|
        decreases votes.Keys - counted
      {
        var a :| a in votes.Keys - counted;
        OneMoreCounted(votes, counted, a);
        yes := yes + if votes[a] then 1 else 0;
        total := total + 1;
        counted := counted + {a};
      }
      assert counted == votes.Keys;
      assert InFavourAmong(votes, votes.Keys) == InFavour(votes);
    }

    method WithdrawProposal(id: Id, who: Id) returns (ok: bool)
      requires Valid()
      modifies this
      ensures Valid() && View() == Apply(old(View()), Step.Withdraw(id, who), percent) && history == old(history)
      ensures ok <==> id in old(View()) && old(View())[id].status == Pending && old(View())[id].proposer == who
      ensures View() == if ok then old(View())[id := old(View())[id].(status := Withdrawn)] else old(View())
    {
      var p := GetProposal(id);
      if p.None? || p.value.status != Pending || p.value.proposer != who {
        return false;
      }
      Rewrite(id, p.value.(status := Withdrawn));
      return true;
    }

    method GetPendingProposals(limit: nat) returns (ps: seq<Proposal>)
      ensures ps == Oldest(lines, limit)
    {
      ps := [];
      var i := 0;
      while i < |lines|
        invariant 0 <= i <= |lines| && ps == PendingLines(lines[..i])
      {
        assert lines[..i + 1][..i] == lines[..i];
        if lines[i].status == Pending {
          ps := ps + [lines[i]];
        }
        i := i + 1;
      }
      assert lines[..i] == lines;
      ps := SortAsc(ps, Created);
      if |ps| > limit {
        ps := ps[..limit];
      }
    }
  }
}
