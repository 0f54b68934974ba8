/**
 The safety results are not about a machine that never moves: with a correct
 proposer and enough other correct validators, every block that the chain
 accepts can be finalized in the first round, whatever the rest does.
 */
module IbftProgress {
  import opened Common
  import opened IbftMessages
  import opened IbftChecks
  import opened IbftNode
  import opened IbftNetwork
  import IbftStore

  /** Who takes part: the proposer of round 0 and others, all correct, with a valid block and its hash. */
  datatype Team = Team(proposer: Address, others: seq<Address>, raw: Raw, hash: Hash)

  ghost predicate Ready(g: Setting, t: Team) {
    && g.correct <= Elements(g.b.validators) && t.proposer in g.correct && IsProposer(g.b, t.proposer, 0)
    && (forall i | 0 <= i < |t.others| :: t.others[i] in g.correct && t.others[i] != t.proposer)
    && (forall i, j | 0 <= i < j < |t.others| :: t.others[i] != t.others[j])
    && |t.others| + 1 >= g.b.quorum
    && g.b.isValidProposal(t.raw) && g.b.hashOf(t.raw, 0) == Some(t.hash)
  }

  function Members(t: Team): seq<Address> {
    [t.proposer] + t.others
  }

  function FirstView(g: Setting): View {
    View(g.height, 0)
  }

  function TheProposal(g: Setting, t: Team): Message {
    PrePrepare(FirstView(g), t.proposer, Some(t.proposer), Proposal(t.raw, 0), t.hash, None)
  }

  function Votes(g: Setting, t: Team): seq<Message> {
    seq(|t.others|, i requires 0 <= i < |t.others| => PrepareMessage(t.others[i], FirstView(g), t.hash))
  }

  function CommitVotes(g: Setting, t: Team): seq<Message> {
    seq(|Members(t)|, i requires 0 <= i < |Members(t)| => CommitMessage(Members(t)[i], FirstView(g), t.hash))
  }

  /** A node in a phase of round 0 with the proposal. */
  ghost predicate In(g: Setting, t: Team, s: NodeState, name: Name) {
    s.view == FirstView(g) && s.running && s.name == name && s.proposalMessage == Some(TheProposal(g, t))
  }

  ghost predicate Execs(g: Setting, e: Execution) {
    |e.states| == |e.steps| + 1 && IsExecution(g, e)
  }

  ghost function Last(e: Execution): System
    requires e.states != []
  {
    e.states[|e.states| - 1]
  }

  /** One more step of an execution. */
  lemma Extend(g: Setting, e: Execution, id: Address, a: Action) returns (e': Execution)
    requires Execs(g, e) && CanStep(g, Last(e), NodeStep(id, a))
    ensures Execs(g, e') && Last(e').nodes == Last(e).nodes[id := Next(Last(e).nodes[id], a)]
    ensures Last(e').sent == Last(e).sent + Outs(id, Last(e).nodes[id], a)
    ensures Last(e').finals == Last(e).finals + if a.Committed? then {Final(id, Last(e).nodes[id].view.round, Last(e).nodes[id].proposalMessage.value.hash, a.commits)} else {}
  {
    hide CanStep;
    e' := Execution(e.states + [After(g, Last(e), NodeStep(id, a))], e.steps + [NodeStep(id, a)]);
    forall i | 0 <= i < |e'.steps| ensures CanStep(g, e'.states[i], e'.steps[i]) && e'.states[i + 1] == After(g, e'.states[i], e'.steps[i]) {
      if i < |e.steps| {
        assert e'.steps[i] == e.steps[i] && e'.states[i] == e.states[i] && e'.states[i + 1] == e.states[i + 1];
      }
    }
    Unfold(g, Last(e), id, a);
  }

  lemma Unfold(g: Setting, sys: System, id: Address, a: Action)
    requires CanStep(g, sys, NodeStep(id, a))
    ensures id in sys.nodes
    ensures a.Committed? ==> sys.nodes[id].proposalMessage.Some? && sys.nodes[id].proposalMessage.value.PrePrepare?
    ensures a.Prepared? ==> sys.nodes[id].proposalMessage.Some? && sys.nodes[id].proposalMessage.value.PrePrepare?
  {
  }

  // ---------- the proposal is accepted ----------

  ghost predicate Accepting(g: Setting, t: Team, sys: System, k: nat) {
    && k <= |t.others| && sys.nodes.Keys == g.correct && t.proposer in g.correct && TheProposal(g, t) in sys.sent
    && In(g, t, sys.nodes[t.proposer], Preparing)
    && (forall i | 0 <= i < |t.others| :: t.others[i] in sys.nodes)
    && (forall i | 0 <= i < k :: In(g, t, sys.nodes[t.others[i]], Preparing) && Votes(g, t)[i] in sys.sent)
    && (forall i | k <= i < |t.others| :: sys.nodes[t.others[i]] == Init(g.height))
  }

  lemma Proposes(g: Setting, t: Team) returns (e: Execution)
    requires Ready(g, t)
    ensures Execs(g, e) && Accepting(g, t, Last(e), 0)
  {
    var start := Execution([Start(g)], []);
    e := Extend(g, start, t.proposer, Propose(TheProposal(g, t)));
  }

  lemma OneAccepts(g: Setting, t: Team, e: Execution, k: nat) returns (e': Execution)
    requires Ready(g, t) && Execs(g, e) && k < |t.others| && Accepting(g, t, Last(e), k)
    ensures Execs(g, e') && Accepting(g, t, Last(e'), k + 1)
  {
    hide IsExecution, IsProposer;
    var q, m := t.others[k], TheProposal(g, t);
    OnlyProposer(g, t, q);
    var started := Extend(g, e, q, StartRound);
    e' := Extend(g, started, q, Accept(m));
  }

  lemma OnlyProposer(g: Setting, t: Team, q: Address)
    requires Ready(g, t) && q != t.proposer
    ensures !IsProposer(g.b, q, 0) && t.proposer in g.b.validators
  {
  }

  lemma {:induction false} AllAccept(g: Setting, t: Team, k: nat) returns (e: Execution)
    requires Ready(g, t) && k <= |t.others|
    ensures Execs(g, e) && Accepting(g, t, Last(e), k)
  {
    hide Ready, Accepting, IsExecution;
    if k == 0 {
      e := Proposes(g, t);
    } else {
      var before := AllAccept(g, t, k - 1);
      e := OneAccepts(g, t, before, k - 1);
    }
  }

  // ---------- everybody prepares and commits ----------

  ghost predicate Locking(g: Setting, t: Team, sys: System, k: nat) {
    && k <= |Members(t)| && sys.nodes.Keys == g.correct
    && (forall i | 0 <= i < |t.others| :: Votes(g, t)[i] in sys.sent)
    && (forall i | 0 <= i < |Members(t)| :: Members(t)[i] in sys.nodes)
    && (forall i | 0 <= i < k :: In(g, t, sys.nodes[Members(t)[i]], Committing) && CommitVotes(g, t)[i] in sys.sent)
    && (forall i | k <= i < |Members(t)| :: In(g, t, sys.nodes[Members(t)[i]], Preparing))
  }

  lemma AcceptedIsLocking(g: Setting, t: Team, sys: System)
    requires Accepting(g, t, sys, |t.others|)
    ensures Locking(g, t, sys, 0)
  {
    hide In;
    forall i | 0 <= i < |Members(t)| ensures Members(t)[i] in sys.nodes && In(g, t, sys.nodes[Members(t)[i]], Preparing) {
      if i > 0 {
        assert Members(t)[i] == t.others[i - 1];
      }
    }
  }

  lemma VotesAreQuorum(g: Setting, t: Team, sys: System, s: NodeState)
    requires Ready(g, t) && In(g, t, s, Preparing) && forall i | 0 <= i < |t.others| :: Votes(g, t)[i] in sys.sent
    ensures PrepareQuorum(g.b, s, Votes(g, t), sys.sent)
  {
    var votes := Votes(g, t);
    assert |votes| > 0 ==> votes[0].Prepare?;
    forall m | m in votes
      ensures Received(g.b, m, sys.sent) && m.Prepare? && m.view == s.view && IsValidProposalHash(g.b, s.proposalMessage.value.proposal, m.hash)
    {
      var i :| 0 <= i < |votes| && votes[i] == m;
      assert t.others[i] in g.b.validators;
    }
  }

  lemma MembersDiffer(g: Setting, t: Team)
    requires Ready(g, t)
    ensures forall i, j | 0 <= i < j < |Members(t)| :: Members(t)[i] != Members(t)[j]
    ensures forall i | 0 <= i < |Members(t)| :: Members(t)[i] in g.b.validators
  {
    forall i, j | 0 <= i < j < |Members(t)| ensures Members(t)[i] != Members(t)[j] {
      assert Members(t)[j] == t.others[j - 1];
    }
    forall i | 0 <= i < |Members(t)| ensures Members(t)[i] in g.b.validators {
      if i > 0 {
        assert Members(t)[i] == t.others[i - 1];
      }
    }
  }

  lemma OneLocks(g: Setting, t: Team, e: Execution, k: nat) returns (e': Execution)
    requires Ready(g, t) && Execs(g, e) && k < |Members(t)| && Locking(g, t, Last(e), k)
    ensures Execs(g, e') && Locking(g, t, Last(e'), k + 1)
  {
    hide IsExecution, PrepareQuorum, Votes;
    var id := Members(t)[k];
    VotesAreQuorum(g, t, Last(e), Last(e).nodes[id]);
    MembersDiffer(g, t);
    hide Ready;
    assert CanStep(g, Last(e), NodeStep(id, Prepared(Votes(g, t))));
    e' := Extend(g, e, id, Prepared(Votes(g, t)));
  }

  lemma {:induction false} AllLock(g: Setting, t: Team, k: nat) returns (e: Execution)
    requires Ready(g, t) && k <= |Members(t)|
    ensures Execs(g, e) && Locking(g, t, Last(e), k)
  {
    hide Ready, Accepting, Locking, IsExecution;
    if k == 0 {
      e := AllAccept(g, t, |t.others|);
      AcceptedIsLocking(g, t, Last(e));
    } else {
      var before := AllLock(g, t, k - 1);
      e := OneLocks(g, t, before, k - 1);
    }
  }

  lemma CommitsAreQuorum(g: Setting, t: Team, sys: System, s: NodeState)
    requires Ready(g, t) && In(g, t, s, Committing) && forall i | 0 <= i < |Members(t)| :: CommitVotes(g, t)[i] in sys.sent
    ensures CommitQuorum(g.b, s, CommitVotes(g, t), sys.sent)
  {
    MembersDiffer(g, t);
    var commits := CommitVotes(g, t);
    forall m | m in commits
      ensures && Received(g.b, m, sys.sent) && m.Commit? && m.view == s.view
              && IsValidProposalHash(g.b, s.proposalMessage.value.proposal, m.hash)
              && IsValidCommittedSeal(g.b, m.hash, m.from, m.seal)
    {
      var i :| 0 <= i < |commits| && commits[i] == m;
    }
  }

  /**
   There is an execution in which the proposer of round 0 finalizes its block,
   if the chain accepts it and enough correct validators take part.
   */
  lemma ValidBlockCanBeFinal(g: Setting, t: Team) returns (e: Execution)
    requires Ready(g, t)
    ensures IsExecution(g, e)
    ensures exists f :: f in Last(e).finals && f.id == t.proposer && f.round == 0 && f.hash == t.hash
    ensures t.proposer in Last(e).nodes && Last(e).nodes[t.proposer].name == Fin
            && Last(e).nodes[t.proposer].proposalMessage == Some(TheProposal(g, t))
  {
    hide CommitQuorum, CommitVotes;
    var before := AllLock(g, t, |Members(t)|);
    var s := Last(before).nodes[Members(t)[0]];
    CommitsAreQuorum(g, t, Last(before), s);
    e := Extend(g, before, t.proposer, Committed(CommitVotes(g, t)));
    assert Final(t.proposer, 0, t.hash, CommitVotes(g, t)) in Last(e).finals;
  }
}
