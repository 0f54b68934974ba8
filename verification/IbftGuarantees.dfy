/**
 What the checks of a validator amount to, field by field: which certificates
 and which proposals pass, and no others.
 */
module IbftGuarantees {
  import opened Common
  import opened IbftMessages
  import opened IbftChecks
  import opened IbftNode
  import ValidatorSet

  function ProposerOf(b: Backend, round: nat): Address
    requires b.validators != []
  {
    ValidatorSet.CalcProposer(b.validators, round, b.lastProposer)
  }

  /** Signed by the validator it claims to be from. */
  ghost predicate Authentic(b: Backend, m: Message) {
    m.signer == Some(m.from) && m.from in b.validators
  }

  /** A PREPARE of the view by a validator who does not propose in it. */
  ghost predicate Vote(b: Backend, m: Message, view: View) {
    m.Prepare? && m.view == view && Authentic(b, m) && m.from != ProposerOf(b, view.round)
  }

  /** The proposal of a view by its proposer, with PREPAREs of distinct others that make a quorum with it. */
  ghost predicate Evidence(b: Backend, p: Message, votes: seq<Message>, view: View) {
    && b.validators != [] && |votes| + 1 >= b.quorum
    && p.PrePrepare? && p.view == view && Authentic(b, p) && p.from == ProposerOf(b, view.round)
    && (forall i | 0 <= i < |votes| :: Vote(b, votes[i], view))
    && (forall i, j | 0 <= i < j < |votes| :: votes[i].from != votes[j].from)
  }

  /** Once a hash is given, all that follow are the same. */
  ghost predicate OneHash(p: Message, votes: seq<Message>)
    requires p.PrePrepare? && forall i | 0 <= i < |votes| :: votes[i].Prepare?
  {
    && (p.hash != [] ==> forall i | 0 <= i < |votes| :: votes[i].hash == p.hash)
    && (forall i, j | 0 <= i < j < |votes| :: votes[i].hash != [] ==> votes[j].hash == votes[i].hash)
  }

  /** A certificate passes exactly when it is such evidence for one earlier round of the height. */
  lemma CertificateIff(b: Backend, c: Certificate, rLimit: nat, height: nat)
    ensures ValidPC(b, Some(c), rLimit, height)
            <==> && c.proposal.Some? && c.prepares.Some?
                 && var p, votes := c.proposal.value, c.prepares.value;
                 && p.view.height == height && p.view.round < rLimit && Evidence(b, p, votes, p.view) && OneHash(p, votes)
    ensures ValidPC(b, None, rLimit, height)
  {
    hide IsProposer, UniqueSenders, SameProposalHash, AllHaveLowerRound, AllHaveSameHeight, AllHaveSameRound, OneHash, Authentic;
    if c.proposal.Some? && c.prepares.Some? && c.proposal.value.PrePrepare? {
      var p, votes := c.proposal.value, c.prepares.value;
      AllOf(p, votes);
      ProposerMeans(b, p.from, p.view.round);
      ViewsIff(p, votes, rLimit, height);
      SendersIff(p, votes);
      AuthenticMeans(b, p);
      if forall i | 0 <= i < |votes| :: votes[i].Prepare? {
        HashIff(p, votes);
      }
      forall i | 0 <= i < |votes| ensures IsValidValidator(b, votes[i]) <==> Authentic(b, votes[i])
        ensures IsProposer(b, votes[i].from, votes[i].view.round)
                <==> b.validators != [] && votes[i].from == ProposerOf(b, votes[i].view.round)
      {
        AuthenticMeans(b, votes[i]);
        ProposerMeans(b, votes[i].from, votes[i].view.round);
      }
      assert (forall m | m in votes :: m.Prepare?) <==> forall i | 0 <= i < |votes| :: votes[i].Prepare?;
      assert (forall m | m in votes :: IsValidValidator(b, m) && !IsProposer(b, m.from, m.view.round))
             <==> forall i | 0 <= i < |votes| :: IsValidValidator(b, votes[i]) && !IsProposer(b, votes[i].from, votes[i].view.round);
    }
  }

  lemma AuthenticMeans(b: Backend, m: Message)
    ensures IsValidValidator(b, m) <==> Authentic(b, m)
  {
  }

  lemma HashIff(p: Message, votes: seq<Message>)
    requires p.PrePrepare? && forall i | 0 <= i < |votes| :: votes[i].Prepare?
    ensures SameProposalHash([p] + votes) <==> OneHash(p, votes)
  {
    var all := [p] + votes;
    AllOf(p, votes);
    assert forall i | 0 <= i < |votes| :: votes[i] == all[i + 1];
  }

  lemma SendersIff(p: Message, votes: seq<Message>)
    ensures UniqueSenders([p] + votes)
            <==> && (forall i | 0 <= i < |votes| :: votes[i].from != p.from)
                 && (forall i, j | 0 <= i < j < |votes| :: votes[i].from != votes[j].from)
  {
    var all := [p] + votes;
    AllOf(p, votes);
    assert forall i | 0 <= i < |votes| :: votes[i] == all[i + 1];
  }

  lemma ViewsIff(p: Message, votes: seq<Message>, rLimit: nat, height: nat)
    ensures var all := [p] + votes;
            AllHaveLowerRound(all, rLimit) && AllHaveSameHeight(all, height) && AllHaveSameRound(all)
            <==> p.view.round < rLimit && p.view.height == height && forall i | 0 <= i < |votes| :: votes[i].view == p.view
  {
    var all := [p] + votes;
    AllOf(p, votes);
    assert p in all && forall i | 0 <= i < |votes| :: votes[i] in all;
  }

  lemma AllOf(p: Message, votes: seq<Message>)
    ensures var all := [p] + votes;
            && |all| == |votes| + 1 && all[0] == p && (forall i | 0 < i < |all| :: all[i] == votes[i - 1])
            && forall m :: m in all <==> m == p || m in votes
  {
  }

  lemma ProposerMeans(b: Backend, id: Address, round: nat)
    ensures IsProposer(b, id, round) <==> b.validators != [] && id == ProposerOf(b, round)
  {
  }

  /** A quorum of ROUND-CHANGE messages for the view, by distinct validators. */
  ghost predicate Mandate(b: Backend, rcc: seq<Message>, view: View) {
    && rcc != [] && |rcc| >= b.quorum
    && (forall i | 0 <= i < |rcc| :: rcc[i].RoundChange? && rcc[i].view == view && Authentic(b, rcc[i]))
    && (forall i, j | 0 <= i < j < |rcc| :: rcc[i].from != rcc[j].from)
  }

  /** A ROUND-CHANGE message whose certificate shows that something was prepared before `round`. */
  ghost predicate Shows(b: Backend, rc: Message, round: nat, height: nat) {
    rc.RoundChange? && rc.latestPC.Some? && ValidPC(b, rc.latestPC, round, height)
  }

  /** The lock of the highest round, and the last of those, is on this hash. */
  ghost predicate LatestIs(b: Backend, rcc: seq<Message>, round: nat, height: nat, hash: Hash) {
    exists k | 0 <= k < |rcc| ::
      && Shows(b, rcc[k], round, height)
      && rcc[k].latestPC.value.proposal.value.hash == hash
      && forall j | 0 <= j < |rcc| && Shows(b, rcc[j], round, height) ::
           var r, s := rcc[j].latestPC.value.proposal.value.view.round, rcc[k].latestPC.value.proposal.value.view.round;
           r < s || (r == s && j <= k)
  }

  /**
   Which proposals a validator accepts in a view: those of the view's proposer,
   who is somebody else, for a block that the chain accepts and its hash in this
   round; after round 0 also with a mandate for the view, and on the hash of the
   latest lock that the mandate shows, if it shows any.
   */
  lemma AcceptableIff(b: Backend, id: Address, m: Message, view: View)
    requires m.PrePrepare? && m.view == view
    ensures Acceptable(b, id, m, view)
            <==> && b.validators != [] && m.from == ProposerOf(b, view.round) != id
                 && m.proposal.round == view.round && b.hashOf(m.proposal.raw, view.round) == Some(m.hash)
                 && b.isValidProposal(m.proposal.raw)
                 && (view.round > 0 ==>
                       && m.rcc.Some? && Mandate(b, m.rcc.value, view)
                       && ((forall i | 0 <= i < |m.rcc.value| :: !Shows(b, m.rcc.value[i], view.round, view.height))
                           || LatestIs(b, m.rcc.value, view.round, view.height, m.hash)))
  {
    hide ValidPC;
    ProposerMeans(b, id, view.round);
    ProposerMeans(b, m.from, view.round);
    hide IsProposer;
    if m.rcc.Some? {
      MandateIff(b, m.rcc.value, view);
      LocksIff(b, m.rcc.value, m, view.height);
    }
  }

  lemma MandateIff(b: Backend, rcc: seq<Message>, view: View)
    ensures WellFormedRCC(b, rcc, view) <==> Mandate(b, rcc, view)
  {
    if Mandate(b, rcc, view) {
      forall rc | rc in rcc ensures rc.RoundChange? && rc.view == view && IsValidValidator(b, rc) {
        var i :| 0 <= i < |rcc| && rcc[i] == rc;
      }
    } else if WellFormedRCC(b, rcc, view) {
      assert forall i | 0 <= i < |rcc| :: rcc[i] in rcc;
    }
  }

  lemma LocksIff(b: Backend, rcc: seq<Message>, m: Message, height: nat)
    requires m.PrePrepare?
    ensures RespectsLocks(b, rcc, m, height)
            <==> || (forall i | 0 <= i < |rcc| :: !Shows(b, rcc[i], m.view.round, height))
                 || LatestIs(b, rcc, m.view.round, height, m.hash)
  {
    forall rc: Message ensures Locks(b, rc, m.view.round, height) <==> Shows(b, rc, m.view.round, height)
      ensures Shows(b, rc, m.view.round, height) ==>
                && LockRound(rc) == rc.latestPC.value.proposal.value.view.round && LockHash(rc) == rc.latestPC.value.proposal.value.hash
    {
    }
    hide ValidPC, LockRound, LockHash, Locks, Shows;
    if LatestIs(b, rcc, m.view.round, height, m.hash) {
      var k :| 0 <= k < |rcc| && Shows(b, rcc[k], m.view.round, height) && rcc[k].latestPC.value.proposal.value.hash == m.hash
               && forall j | 0 <= j < |rcc| && Shows(b, rcc[j], m.view.round, height) ::
                    var r, s := rcc[j].latestPC.value.proposal.value.view.round, rcc[k].latestPC.value.proposal.value.view.round;
                    r < s || (r == s && j <= k);
      assert LatestLock(b, rcc, m.view.round, height, k);
    }
  }

  /** How many messages of a kind are enough: one proposal; of PREPAREs one less than a quorum, unless the proposal is with them. */
  lemma QuorumIff(b: Backend, msgs: seq<Message>)
    ensures HasQuorum(b, msgs, PREPREPARE) <==> msgs != []
    ensures msgs != [] && msgs[0].PrePrepare? ==> (HasQuorum(b, msgs, PREPARE) <==> |msgs| >= b.quorum)
    ensures msgs == [] || !msgs[0].PrePrepare? ==> (HasQuorum(b, msgs, PREPARE) <==> |msgs| + 1 >= b.quorum)
    ensures HasQuorum(b, msgs, COMMIT) <==> |msgs| >= b.quorum
    ensures HasQuorum(b, msgs, ROUND_CHANGE) <==> |msgs| >= b.quorum
  {
  }

  /**
   A certificate moves a node exactly when it is a mandate, of messages that were
   delivered and pass their check, for one round above zero of the node's height,
   not for the node's own round if it has a proposal there; and some ROUND-CHANGE
   message for a higher round has set off the search.
   */
  lemma JumpIff(b: Backend, id: Address, s: NodeState, rcc: seq<Message>, available: set<Message>)
    requires rcc != []
    ensures var view := rcc[0].view;
            Enabled(false, b, id, s, JumpRCC(rcc), available)
            <==> && Mandate(b, rcc, view) && view.height == s.view.height && view.round > 0
                 && (forall i | 0 <= i < |rcc| :: rcc[i] in available && RoundChangeCheck(b, rcc[i], s.view.height) == Passes)
                 && (view.round == s.view.round ==> s.proposalMessage == None)
                 && exists m :: m in available && m.RoundChange? && Authentic(b, m) && m.view.height == s.view.height && m.view.round > s.view.round
    ensures Enabled(true, b, id, s, JumpRCC(rcc), available)
            <==> Enabled(false, b, id, s, JumpRCC(rcc), available) && rcc[0].view.round > s.view.round
  {
    hide ValidPC, ProposalCheck;
    assert (forall m | m in rcc :: Received(b, m, available) && m.view == rcc[0].view && ValidRoundChange(b, m, s.view.height))
           <==> forall i | 0 <= i < |rcc| ::
                  Received(b, rcc[i], available) && rcc[i].view == rcc[0].view && ValidRoundChange(b, rcc[i], s.view.height);
  }
}
