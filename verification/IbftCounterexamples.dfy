/**
 Concrete inputs at which the consensus code does not do what one would expect,
 with four validators, one of them faulty. Without a guard on the certificate
 jump a node falls back to a round it has committed in: validator 1 commits in
 round 1, times out into round 2, is sent back to round 1 by the stored
 round-change messages, and commits there a second time. A round-change message
 with a certificate and no proposal makes its check panic. And a locked block
 that is proposed again in a later round is refused.
 */
module IbftCounterexamples {
  import opened Common
  import opened IbftMessages
  import opened IbftChecks
  import opened IbftNode

  const HEIGHT := 5

  const B := Backend([1, 2, 3, 4], 3, 0, (raw: Raw, round: nat) => Some([round] + raw), (raw: Raw) => true)

  function RC(from: Address, round: nat): Message {
    RoundChange(View(HEIGHT, round), from, Some(from), None, None)
  }

  function Certificate1(): seq<Message> {
    [RC(1, 1), RC(2, 1), RC(3, 1)]
  }

  /** A proposal of validator 2, the proposer of round 1. */
  function ProposalOf2(raw: Raw): Message {
    PrePrepare(View(HEIGHT, 1), 2, Some(2), Proposal(raw, 1), [1] + raw, Some(Certificate1()))
  }

  function PreparesFor(raw: Raw): seq<Message> {
    [PrepareMessage(1, View(HEIGHT, 1), [1] + raw), PrepareMessage(2, View(HEIGHT, 1), [1] + raw)]
  }

  /** What the network delivers: both proposals, the PREPAREs, and one message for round 3. */
  function Delivered(): set<Message> {
    Elements(Certificate1()) + {ProposalOf2([7]), ProposalOf2([8]), RC(2, 3)}
    + Elements(PreparesFor([7])) + Elements(PreparesFor([8]))
  }

  function Actions(): seq<Action> {
    [Expire,
     StartRound, Accept(ProposalOf2([7])), Prepared(PreparesFor([7])),
     Expire,
     JumpRCC(Certificate1()),
     StartRound, Accept(ProposalOf2([8])), Prepared(PreparesFor([8]))]
  }

  function At(round: nat, name: Name, running: bool, proposal: Option<Message>, pc: Option<Certificate>, prepared: Option<Proposal>): NodeState {
    NodeState(View(HEIGHT, round), name, running, running, proposal, pc, prepared, [])
  }

  function States(): seq<NodeState> {
    var p, q := Some(ProposalOf2([7])), Some(ProposalOf2([8]));
    var pc, prepared := Some(Certificate(p, Some(PreparesFor([7])))), Some(Proposal([7], 1));
    var pc', prepared' := Some(Certificate(q, Some(PreparesFor([8])))), Some(Proposal([8], 1));
    [At(0, NewRound, false, None, None, None),
     At(1, NewRound, false, None, None, None),
     At(1, NewRound, true, None, None, None),
     At(1, Preparing, true, p, None, None),
     At(1, Committing, true, p, pc, prepared),
     At(2, NewRound, false, None, pc, prepared),
     At(1, NewRound, false, None, pc, prepared),
     At(1, NewRound, true, None, pc, prepared),
     At(1, Preparing, true, q, pc, prepared),
     At(1, Committing, true, q, pc', prepared')]
  }

  lemma ProposersAre(round: nat)
    requires round <= 2
    ensures IsProposer(B, 1, round) <==> round == 0
    ensures IsProposer(B, 2, round) <==> round == 1
  {
  }

  lemma CertificateIsValid()
    ensures WellFormedRCC(B, Certificate1(), View(HEIGHT, 1))
    ensures forall m | m in Certificate1() :: ValidRoundChange(B, m, HEIGHT)
  {
  }

  lemma ProposalIsValid(raw: Raw)
    ensures Acceptable(B, 1, ProposalOf2(raw), View(HEIGHT, 1))
  {
    CertificateIsValid();
    ProposersAre(1);
  }

  lemma PreparesAreValid(s: NodeState, raw: Raw)
    requires raw == [7] || raw == [8]
    requires s.proposalMessage == Some(ProposalOf2(raw)) && s.view == View(HEIGHT, 1)
    ensures PrepareQuorum(B, s, PreparesFor(raw), Delivered())
  {
    var ps := PreparesFor(raw);
    assert forall m | m in ps :: m in Delivered();
  }

  lemma JumpIsEnabled(s: NodeState)
    requires s.view == View(HEIGHT, 2) && s.proposalMessage == None
    ensures Enabled(false, B, 1, s, JumpRCC(Certificate1()), Delivered())
  {
    CertificateIsValid();
    var rcc := Certificate1();
    assert forall m | m in rcc :: m in Delivered();
    assert Received(B, RC(2, 3), Delivered());
  }

  /** Timer, start and jump steps. */
  lemma MoveSteps(i: nat)
    requires i in {0, 1, 4, 5, 6}
    ensures Enabled(false, B, 1, States()[i], Actions()[i], Delivered())
    ensures States()[i + 1] == Next(States()[i], Actions()[i])
  {
    hide Acceptable, ExtendedRCC, OwnProposal, CommitQuorum, PrepareQuorum, Delivered, ProposalOf2, PreparesFor;
    ProposersAre(1);
    if i == 5 {
      JumpIsEnabled(States()[5]);
    }
  }

  lemma AcceptIsEnabled(s: NodeState, raw: Raw)
    requires raw == [7] || raw == [8]
    requires s.running && s.name == NewRound && s.view == View(HEIGHT, 1)
    ensures Enabled(false, B, 1, s, Accept(ProposalOf2(raw)), Delivered())
  {
    ProposalIsValid(raw);
  }

  lemma AcceptSteps(i: nat)
    requires i in {2, 7}
    ensures Enabled(false, B, 1, States()[i], Actions()[i], Delivered())
    ensures States()[i + 1] == Next(States()[i], Actions()[i])
  {
    var raw := if i == 2 then [7] else [8];
    var s, a := States()[i], Actions()[i];
    assert a == Accept(ProposalOf2(raw));
    AcceptIsEnabled(s, raw);
  }

  lemma PrepareIsEnabled(s: NodeState, raw: Raw)
    requires raw == [7] || raw == [8]
    requires s.running && s.name == Preparing && s.view == View(HEIGHT, 1) && s.proposalMessage == Some(ProposalOf2(raw))
    ensures Enabled(false, B, 1, s, Prepared(PreparesFor(raw)), Delivered())
  {
    PreparesAreValid(s, raw);
  }

  lemma PrepareSteps(i: nat)
    requires i in {3, 8}
    ensures Enabled(false, B, 1, States()[i], Actions()[i], Delivered())
    ensures States()[i + 1] == Next(States()[i], Actions()[i])
  {
    hide Acceptable, ExtendedRCC, OwnProposal, CommitQuorum, PrepareQuorum, Delivered, PreparesFor, Certificate1;
    var raw := if i == 3 then [7] else [8];
    var s, a := States()[i], Actions()[i];
    assert a == Prepared(PreparesFor(raw));
    PrepareIsEnabled(s, raw);
  }

  lemma AnyStep(i: nat)
    requires i < 9
    ensures Enabled(false, B, 1, States()[i], Actions()[i], Delivered())
    ensures States()[i + 1] == Next(States()[i], Actions()[i])
  {
    hide Enabled, Next, Delivered, States, Actions;
    if i in {2, 7} {
      AcceptSteps(i);
    } else if i in {3, 8} {
      PrepareSteps(i);
    } else {
      MoveSteps(i);
    }
  }

  lemma TwoCommits()
    ensures Outs(1, States()[3], Actions()[3]) == {CommitMessage(1, View(HEIGHT, 1), [1, 7])}
    ensures Outs(1, States()[8], Actions()[8]) == {CommitMessage(1, View(HEIGHT, 1), [1, 8])}
  {
    assert [1] + [7] == [1, 7] && [1] + [8] == [1, 8];
  }

  /** The round falls, and one validator signs two COMMITs for one view. */
  lemma UnguardedJumpCommitsTwice()
    ensures IsRun(false, B, 1, HEIGHT, Run(States(), Actions(), seq(9, i => Delivered())))
    ensures States()[6].view.round < States()[5].view.round
    ensures Outs(1, States()[3], Actions()[3]) == {CommitMessage(1, View(HEIGHT, 1), [1, 7])}
    ensures Outs(1, States()[8], Actions()[8]) == {CommitMessage(1, View(HEIGHT, 1), [1, 8])}
  {
    hide Enabled, Next, Delivered;
    forall i | 0 <= i < 9
      ensures Enabled(false, B, 1, States()[i], Actions()[i], Delivered()) && States()[i + 1] == Next(States()[i], Actions()[i])
    {
      AnyStep(i);
    }
    TwoCommits();
  }

  /** A certificate for block 7 in round 1, with PREPAREs of validators 1 and 3. */
  function Lock(): Certificate {
    Certificate(Some(ProposalOf2([7])),
                Some([PrepareMessage(1, View(HEIGHT, 1), [1, 7]), PrepareMessage(3, View(HEIGHT, 1), [1, 7])]))
  }

  lemma LockIsValid()
    ensures ValidPC(B, Some(Lock()), 2, HEIGHT)
  {
    ProposersAre(1);
    OthersPrepare();
    var c := Lock();
    var all := [c.proposal.value] + c.prepares.value;
    assert all == [c.proposal.value, c.prepares.value[0], c.prepares.value[1]];
    assert ProposalOf2([7]).hash == [1, 7];
  }

  lemma OthersPrepare()
    ensures !IsProposer(B, 3, 1) && IsProposer(B, 3, 2) && !IsProposer(B, 1, 2)
  {
  }

  /** A valid certificate without a proposal: the check panics, although the sender and every message are in order. */
  lemma HeadlessPanics()
    ensures var m := RoundChange(View(HEIGHT, 2), 4, Some(4), None, Some(Lock()));
            RoundChangeCheck(B, m, HEIGHT) == Panics && IsValidValidator(B, m)
  {
    hide ValidPC, Lock;
    LockIsValid();
    PanicsIff(B, RoundChange(View(HEIGHT, 2), 4, Some(4), None, Some(Lock())), HEIGHT);
  }

  function LockedRC(from: Address): Message {
    RoundChange(View(HEIGHT, 2), from, Some(from), Some(Proposal([7], 1)), Some(Lock()))
  }

  /** Round 2, whose proposer does what the lock asks for: it proposes block 7 again. */
  function Repeated(): Message {
    PrePrepare(View(HEIGHT, 2), 3, Some(3), Proposal([7], 2), [2, 7], Some([LockedRC(1), LockedRC(2), LockedRC(4)]))
  }

  /** The locked block, repeated with a certificate of valid locks on it, is refused. */
  lemma LockedBlockIsRefused()
    ensures var m := Repeated();
            && ValidCommon(B, m, m.view) && WellFormedRCC(B, m.rcc.value, m.view)
            && (forall rc | rc in m.rcc.value :: Locks(B, rc, 2, HEIGHT) && rc.lastPrepared.value.raw == m.proposal.raw)
            && !ValidProposal(B, 1, m, m.view)
  {
    hide ValidPC;
    LockIsValid();
    OthersPrepare();
    var m := Repeated();
    assert [2] + [7] == [2, 7];
    LockHashIs();
    assert m.rcc.value[0] in m.rcc.value;
  }

  lemma LockHashIs()
    ensures forall k | 0 <= k < 3 :: LockHash(Repeated().rcc.value[k]) == [1, 7] != Repeated().hash
  {
    assert [1] + [7] == [1, 7];
  }
}
