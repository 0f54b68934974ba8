/**
 Only blocks that the chain itself accepts are prepared and finalized: a node
 that did not propose holds a valid block, and a finalized hash is the hash of
 one, whatever the faulty validators do.
 */
module IbftValidity {
  import opened Common
  import opened IbftMessages
  import opened IbftChecks
  import opened IbftNode
  import opened IbftNetwork
  import ValidatorSet

  /** A node past new round has a proposal of its round, and its block is valid unless the node proposed it. */
  ghost predicate HoldsValid(b: Backend, id: Address, s: NodeState) {
    s.name != NewRound ==>
      && s.proposalMessage.Some? && s.proposalMessage.value.PrePrepare?
      && (b.isValidProposal(s.proposalMessage.value.proposal.raw) || IsProposer(b, id, s.view.round))
  }

  lemma NextHoldsValid(strict: bool, b: Backend, id: Address, s: NodeState, a: Action, available: set<Message>)
    requires HoldsValid(b, id, s) && Enabled(strict, b, id, s, a, available)
    ensures HoldsValid(b, id, Next(s, a))
  {
    hide IsProposer, RespectsLocks, WellFormedRCC, ExtendedRCC, PrepareQuorum, CommitQuorum;
    match a
    case Propose(m) =>
    case Prepared(ps) => assert PrepareQuorum(b, s, ps, available);
    case _ =>
  }

  /** In every state of every run, guarded or not, a node that is not the proposer holds a valid block once it is past new round. */
  lemma {:induction false} RunHoldsValid(strict: bool, b: Backend, id: Address, height: nat, r: Run, i: nat)
    requires IsRun(strict, b, id, height, r) && i < |r.states|
    ensures var s := r.states[i];
            s.name != NewRound ==>
              && s.proposalMessage.Some? && s.proposalMessage.value.PrePrepare?
              && (IsProposer(b, id, s.view.round) || b.isValidProposal(s.proposalMessage.value.proposal.raw))
  {
    if i > 0 {
      RunHoldsValid(strict, b, id, height, r, i - 1);
      NextHoldsValid(strict, b, id, r.states[i - 1], r.actions[i - 1], r.inboxes[i - 1]);
    }
  }

  /** The proposer's own first proposal is accepted by exactly the others, and exactly if its block is valid. */
  lemma FirstProposalAcceptedIff(b: Backend, proposer: Address, id: Address, m: Message, height: nat, available: set<Message>)
    requires IsProposer(b, proposer, 0) && OwnProposal(b, proposer, View(height, 0), m, available)
    ensures Acceptable(b, id, m, View(height, 0)) <==> id != proposer && b.isValidProposal(m.proposal.raw)
  {
  }

  // ---------- whole executions ----------

  /** The hash is that of a valid block for the round. */
  ghost predicate HashOfValid(b: Backend, hash: Hash, round: nat) {
    exists raw: Raw :: b.isValidProposal(raw) && b.hashOf(raw, round) == Some(hash)
  }

  ghost predicate CommitValid(g: Setting, m: Message) {
    m.Commit? ==> HashOfValid(g.b, m.hash, m.view.round) || IsProposer(g.b, m.from, m.view.round)
  }

  /** What correct nodes hold and what they have committed to. */
  ghost predicate ValidSoFar(g: Setting, sys: System) {
    && (forall id | id in sys.nodes :: HoldsValid(g.b, id, sys.nodes[id]))
    && (forall m | m in sys.sent && SignedByCorrect(g, m) :: CommitValid(g, m))
  }

  lemma CommitIsValid(g: Setting, sys: System, id: Address, a: Action, m: Message)
    requires Inv(g, sys) && ValidSoFar(g, sys) && CanStep(g, sys, NodeStep(id, a)) && m in Outs(id, sys.nodes[id], a)
    ensures CommitValid(g, m)
  {
    hide IsProposer, Acceptable, ExtendedRCC, CommitQuorum, HeldWasSent, NoForgery, SentOk, CommitsUnique, FinalsOk;
    var s := sys.nodes[id];
    assert NodeInv(g.b, id, g.height, s) && HoldsValid(g.b, id, s);
    if a.Prepared? {
      var p := s.proposalMessage.value;
      assert g.b.hashOf(p.proposal.raw, s.view.round) == Some(p.hash);
    }
  }

  lemma ValidStep(g: Setting, sys: System, step: Step)
    requires Inv(g, sys) && ValidSoFar(g, sys) && CanStep(g, sys, step)
    ensures ValidSoFar(g, After(g, sys, step))
  {
    hide Inv, HoldsValid, CommitValid, Enabled;
    var sys' := After(g, sys, step);
    forall m | m in sys'.sent && SignedByCorrect(g, m) ensures CommitValid(g, m) {
      if m !in sys.sent {
        NewMessage(g, sys, step, m);
        CommitIsValid(g, sys, step.id, step.action, m);
      }
    }
    if step.NodeStep? {
      NextHoldsValid(true, g.b, step.id, sys.nodes[step.id], step.action, sys.sent);
    }
  }

  lemma {:induction false} ReachableValid(g: Setting, e: Execution, i: nat)
    requires IsExecution(g, e) && i < |e.states|
    ensures ValidSoFar(g, e.states[i])
  {
    if i > 0 {
      hide Inv, ValidSoFar, After, CanStep;
      ReachableValid(g, e, i - 1);
      ReachableInv(g, e, i - 1);
      ValidStep(g, e.states[i - 1], e.steps[i - 1]);
    }
  }

  /** Among enough signers there is a correct one that is not the proposer. */
  lemma CorrectVoter(g: Setting, signers: set<Address>, round: nat) returns (a: Address)
    requires signers <= Elements(g.b.validators) && |signers| >= g.b.quorum >= |Faulty(g)| + 2
    ensures a in signers && a in g.correct && !IsProposer(g.b, a, round)
  {
    assert signers != {};
    var v :| v in signers;
    assert v in g.b.validators;
    var p := ValidatorSet.CalcProposer(g.b.validators, round, g.b.lastProposer);
    assert |signers| <= |signers - {p}| + 1;
    if signers - {p} <= Faulty(g) {
      SubsetSize(signers - {p}, Faulty(g));
      assert false;
    }
    a :| a in signers - {p} && a !in Faulty(g);
  }

  /**
   Validity over whole executions: whatever the faulty validators do, a hash
   that any correct validator finalizes is the hash, for its round, of a block
   that the chain accepts.
   */
  lemma FinalsAreValid(g: Setting, e: Execution, i: nat, f: Final)
    requires IsExecution(g, e) && i < |e.states| && f in e.states[i].finals && g.b.quorum >= |Faulty(g)| + 2
    ensures exists raw: Raw :: g.b.isValidProposal(raw) && g.b.hashOf(raw, f.round) == Some(f.hash)
  {
    hide NodesOk, HeldWasSent, NoForgery, SentOk, CommitsUnique, IsProposer, HoldsValid;
    var sys := e.states[i];
    ReachableInv(g, e, i);
    ReachableValid(g, e, i);
    FinalSigners(g, sys.sent, f);
    var a := CorrectVoter(g, Senders(f.commits), f.round);
    var m :| m in f.commits && m.from == a;
    assert m in sys.sent && SignedByCorrect(g, m) && CommitValid(g, m);
  }
}
