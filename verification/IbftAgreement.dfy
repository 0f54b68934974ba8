/**
 Agreement across rounds. The proposal hash takes the round into account, and
 no faulty proposer sends PREPARE for a proposal of its own view: then a round
 in which a correct validator accepts a proposal leaves every earlier round
 without a quorum of COMMITs, so at most one round of a height is ever finalized.
 */
module IbftAgreement {
  import opened Common
  import opened IbftMessages
  import opened IbftChecks
  import opened IbftNode
  import opened IbftNetwork
  import opened IbftValidity
  import Quorum

  /** The hash is that of some proposal of the round. */
  ghost predicate HashedIn(b: Backend, hash: Hash, round: nat) {
    exists raw: Raw :: b.hashOf(raw, round) == Some(hash)
  }

  /** A PREPARE by the proposer of its view, for a proposal of that view. */
  ghost predicate OwnPrepare(b: Backend, m: Message) {
    m.Prepare? && HashedIn(b, m.hash, m.view.round) && IsProposer(b, m.from, m.view.round)
  }

  /** No faulty validator sends one. Correct ones never do; see CorrectAreSilent. */
  ghost predicate FaultySilent(g: Setting, sent: set<Message>) {
    forall m | m in sent && !SignedByCorrect(g, m) :: !OwnPrepare(g.b, m)
  }

  ghost predicate CorrectSilent(g: Setting, sent: set<Message>) {
    forall m | m in sent && SignedByCorrect(g, m) :: !OwnPrepare(g.b, m)
  }

  ghost predicate Assumptions(g: Setting) {
    && WellFormed(g) && SeparatesRounds(g.b)
    && g.b.quorum >= |Faulty(g)| + 2
  }

  /** A correct validator's ROUND-CHANGE carries a certificate if it ever committed below that round. */
  ghost predicate RoundChangeOk(g: Setting, sys: System, m: Message)
    requires m.from in sys.nodes
  {
    m.RoundChange? ==>
      && m.view.round <= sys.nodes[m.from].view.round
      && CertParts(m.latestPC) <= sys.sent
      && (m.latestPC.Some? ==>
            m.view.height == g.height && LockRound(m) < m.view.round
            && BuiltPC(g.b, m.latestPC.value, View(g.height, LockRound(m)))
            && m.latestPC.value.proposal.value.proposal.round == LockRound(m)
            && m.lastPrepared == Some(m.latestPC.value.proposal.value.proposal))
      && (m.latestPC == None ==> m.lastPrepared == None)
      && forall c | c in sys.sent && c.Commit? && c.signer == m.signer && c.view.round < m.view.round :: m.latestPC.Some?
  }

  ghost predicate RoundChangesOk(g: Setting, sys: System) {
    && sys.nodes.Keys == g.correct
    && forall m | m in sys.sent && SignedByCorrect(g, m) :: m.from in sys.nodes && RoundChangeOk(g, sys, m)
  }

  /** A correct PREPARE is for its own round, or for a later one it has jumped to. */
  ghost predicate PreparesOk(g: Setting, sys: System) {
    forall m | m in sys.sent && SignedByCorrect(g, m) && m.Prepare? ::
      HashedIn(g.b, m.hash, m.view.round) || exists r :: r in sys.backing && HashedIn(g.b, m.hash, r)
  }

  /** The correct signers behind a backed round have left all earlier rounds without committing there. */
  ghost predicate Backed(g: Setting, sys: System, r: nat, q: set<Address>) {
    && q <= Elements(g.b.validators) && |q| >= g.b.quorum
    && forall c | c in q && c in g.correct ::
         && c in sys.nodes && sys.nodes[c].view.round >= r
         && forall m | m in sys.sent && m.Commit? && m.signer == Some(c) :: m.view.round >= r
  }

  ghost predicate BackingOk(g: Setting, sys: System) {
    forall r | r in sys.backing :: Backed(g, sys, r, sys.backing[r])
  }

  ghost predicate NodesBacked(g: Setting, sys: System) {
    forall id | id in sys.nodes ::
      var s := sys.nodes[id];
      s.name != NewRound && s.view.round > 0 && !IsProposer(g.b, id, s.view.round) ==> s.view.round in sys.backing
  }

  ghost predicate CommitsBacked(g: Setting, sys: System) {
    forall m | m in sys.sent && m.Commit? && SignedByCorrect(g, m)
               && m.view.round > 0 && !IsProposer(g.b, m.from, m.view.round) :: m.view.round in sys.backing
  }

  ghost predicate LockInv(g: Setting, sys: System) {
    && RoundChangesOk(g, sys) && PreparesOk(g, sys) && CorrectSilent(g, sys.sent)
    && BackingOk(g, sys) && NodesBacked(g, sys) && CommitsBacked(g, sys)
  }

  // ---------- the first acceptance of a round ----------

  /** The certificate of a correct validator that committed is one the checker accepts. */
  lemma HonestLock(g: Setting, sys: System, rc: Message, view: View)
    requires Inv(g, sys) && LockInv(g, sys) && FaultySilent(g, sys.sent)
    requires rc in sys.sent && SignedByCorrect(g, rc) && rc.RoundChange? && rc.view == view && rc.latestPC.Some?
    ensures Locks(g.b, rc, view.round, g.height)
  {
    var c := rc.latestPC.value;
    forall m | m in c.prepares.value ensures !IsProposer(g.b, m.from, m.view.round) {
      assert m in CertParts(rc.latestPC);
      assert g.b.hashOf(c.proposal.value.proposal.raw, m.view.round) == Some(m.hash);
      assert !OwnPrepare(g.b, m);
    }
    BuiltPCPassesIff(g.b, c, View(g.height, LockRound(rc)), view.round);
  }

  /** The PREPAREs of a valid certificate come from at least quorum minus one senders. */
  lemma ManyPreparers(b: Backend, c: Certificate, rLimit: nat, height: nat)
    requires ValidPC(b, Some(c), rLimit, height)
    ensures |Senders(c.prepares.value)| >= b.quorum - 1
  {
    hide SameProposalHash, AllHaveLowerRound, AllHaveSameHeight, AllHaveSameRound, IsProposer, IsValidValidator;
    var p, prepares := c.proposal.value, c.prepares.value;
    var all := [p] + prepares;
    if prepares != [] {
      forall i, j | 0 <= i < j < |prepares| ensures prepares[i].from != prepares[j].from {
        assert all[i + 1] == prepares[i] && all[j + 1] == prepares[j];
      }
      SendersCount(prepares);
    }
  }

  lemma PrepareFacts(b: Backend, c: Certificate, rLimit: nat, height: nat, x: Message)
    requires ValidPC(b, Some(c), rLimit, height) && x in c.prepares.value
    ensures x.Prepare? && IsValidValidator(b, x) && x.view.round < rLimit
    ensures c.proposal.value.hash != [] ==> x.hash == c.proposal.value.hash
  {
    hide UniqueSenders, IsProposer, HasQuorum;
    var all := [c.proposal.value] + c.prepares.value;
    var k :| 0 <= k < |c.prepares.value| && c.prepares.value[k] == x;
    assert all[0] == c.proposal.value && all[k + 1] == x && x in all;
  }

  /** A valid certificate contains a PREPARE of a correct validator. */
  lemma CorrectPrepare(g: Setting, c: Certificate, rLimit: nat) returns (x: Message)
    requires Assumptions(g) && ValidPC(g.b, Some(c), rLimit, g.height)
    ensures x in c.prepares.value && SignedByCorrect(g, x) && x.Prepare? && x.view.round < rLimit
    ensures c.proposal.value.hash != [] ==> x.hash == c.proposal.value.hash
  {
    hide SeparatesRounds, WellFormed, HasQuorum, UniqueSenders, SameProposalHash, AllHaveLowerRound, AllHaveSameHeight,
      AllHaveSameRound, IsProposer, Faulty, Senders;
    ManyPreparers(g.b, c, rLimit, g.height);
    x := SentByOther(c.prepares.value, Faulty(g));
    PrepareFacts(g.b, c, rLimit, g.height, x);
    NotFaulty(g, x.from);
  }

  lemma SentByOther(msgs: seq<Message>, few: set<Address>) returns (x: Message)
    requires |Senders(msgs)| > |few|
    ensures x in msgs && x.from !in few
  {
    var senders := Senders(msgs);
    if senders <= few {
      SubsetSize(senders, few);
      assert false;
    }
    var a :| a in senders && a !in few;
    x :| x in msgs && x.from == a;
  }

  lemma NotFaulty(g: Setting, a: Address)
    requires a in g.b.validators && a !in Faulty(g)
    ensures a in g.correct
  {
  }

  /** A correct PREPARE for the hash of a proposal of round r can come from an earlier view only once r is backed. */
  lemma EarlyPrepare(g: Setting, sys: System, x: Message, p: Proposal)
    requires Assumptions(g) && PreparesOk(g, sys)
    requires x in sys.sent && SignedByCorrect(g, x) && x.Prepare?
    requires IsValidProposalHash(g.b, p, x.hash) && x.view.round < p.round
    ensures p.round in sys.backing
  {
    assert g.b.hashOf(p.raw, p.round) == Some(x.hash);
    assert forall raw: Raw :: g.b.hashOf(raw, x.view.round) != Some(x.hash);
    var r :| r in sys.backing && HashedIn(g.b, x.hash, r);
    var raw :| g.b.hashOf(raw, r) == Some(x.hash);
  }

  /** With the round not backed yet, an accepted proposal's certificate shows no lock at all. */
  lemma NoLockInFirst(g: Setting, sys: System, id: Address, m: Message)
    requires Assumptions(g) && Inv(g, sys) && LockInv(g, sys)
    requires m in sys.sent && ValidProposal(g.b, id, m, m.view) && m.view.height == g.height
    requires m.view.round !in sys.backing
    ensures forall rc | rc in m.rcc.value :: !Locks(g.b, rc, m.view.round, g.height)
  {
    var rcc := m.rcc.value;
    if k :| 0 <= k < |rcc| && LatestLock(g.b, rcc, m.view.round, g.height, k) && LockHash(rcc[k]) == m.hash {
      LockIsNew(g, sys, m, rcc[k]);
      assert false;
    }
  }

  lemma HashPresent(b: Backend, p: Proposal, hash: Hash)
    requires SeparatesRounds(b) && IsValidProposalHash(b, p, hash)
    ensures hash != []
  {
  }

  lemma LockIsNew(g: Setting, sys: System, m: Message, rc: Message)
    requires Assumptions(g) && Inv(g, sys) && LockInv(g, sys)
    requires m in sys.sent && ValidCommon(g.b, m, m.view) && m.rcc.Some? && rc in m.rcc.value
    requires Locks(g.b, rc, m.view.round, g.height) && LockHash(rc) == m.hash
    ensures m.view.round in sys.backing
  {
    hide WellFormed, SeparatesRounds, RoundChangesOk, BackingOk, NodesBacked, CommitsBacked, CorrectSilent, PreparesOk,
      NodesOk, HeldWasSent, SentOk, CommitsUnique, FinalsOk;
    HashPresent(g.b, m.proposal, m.hash);
    var x := CorrectPrepare(g, rc.latestPC.value, m.view.round);
    assert x in CertParts(rc.latestPC);
    assert x in Parts(m);
    EarlyPrepare(g, sys, x, m.proposal);
  }

  /** So the signers of that certificate back the round. */
  lemma FirstAcceptance(g: Setting, sys: System, id: Address, m: Message)
    requires Assumptions(g) && Inv(g, sys) && LockInv(g, sys) && FaultySilent(g, sys.sent)
    requires m in sys.sent && ValidProposal(g.b, id, m, m.view) && m.view.height == g.height
    requires m.view.round !in sys.backing
    ensures Backed(g, sys, m.view.round, Senders(m.rcc.value))
  {
    hide WellFormed, SeparatesRounds, PreparesOk, CorrectSilent, BackingOk, NodesBacked, CommitsBacked, FaultySilent,
      NodesOk, HeldWasSent, CommitsUnique, FinalsOk, ValidPC, IsProposer, BuiltPC;
    var rcc := m.rcc.value;
    SendersCount(rcc);
    NoLockInFirst(g, sys, id, m);
    forall c | c in Senders(rcc) && c in g.correct
      ensures c in sys.nodes && sys.nodes[c].view.round >= m.view.round
      ensures forall n | n in sys.sent && n.Commit? && n.signer == Some(c) :: n.view.round >= m.view.round
    {
      var rc :| rc in rcc && rc.from == c;
      assert rc in Parts(m) && SignedByCorrect(g, rc);
      if rc.latestPC.Some? {
        HonestLock(g, sys, rc, m.view);
      }
    }
  }

  // ---------- preservation ----------

  lemma RoundChangesStep(g: Setting, sys: System, step: Step)
    requires Inv(g, sys) && LockInv(g, sys) && CanStep(g, sys, step)
    ensures RoundChangesOk(g, After(g, sys, step))
  {
    var sys' := After(g, sys, step);
    StepInv(g, sys, step);
    forall m | m in sys'.sent && SignedByCorrect(g, m) ensures RoundChangeOk(g, sys', m) {
      if m.RoundChange? {
        if m in sys.sent {
          OldRoundChange(g, sys, step, m);
        } else {
          NewMessage(g, sys, step, m);
          NewRoundChange(g, sys, step.id, step.action, m);
        }
      }
    }
  }

  lemma NodeMovesForward(g: Setting, sys: System, step: Step, c: Address)
    requires Inv(g, sys) && CanStep(g, sys, step) && c in sys.nodes
    ensures After(g, sys, step).nodes[c].view.round >= sys.nodes[c].view.round
  {
    if step.NodeStep? && step.id == c {
      NextIsForward(g.b, c, g.height, sys.nodes[c], step.action, sys.sent);
    }
  }

  /** A new COMMIT is for the sender's current round. */
  lemma NewCommit(g: Setting, sys: System, step: Step, c: Message)
    requires Inv(g, sys) && CanStep(g, sys, step)
    requires c in After(g, sys, step).sent && c !in sys.sent && c.Commit? && SignedByCorrect(g, c)
    ensures c.from in sys.nodes && c.view == sys.nodes[c.from].view
    ensures step.NodeStep? && step.action.Prepared? && c.from == step.id && c.signer == Some(c.from)
  {
    NewMessage(g, sys, step, c);
  }

  lemma OldRoundChange(g: Setting, sys: System, step: Step, m: Message)
    requires Inv(g, sys) && LockInv(g, sys) && CanStep(g, sys, step)
    requires m in sys.sent && SignedByCorrect(g, m) && m.RoundChange?
    ensures m.from in After(g, sys, step).nodes && RoundChangeOk(g, After(g, sys, step), m)
  {
    var sys' := After(g, sys, step);
    SentGrows(g, sys, step);
    NodeMovesForward(g, sys, step, m.from);
    forall c | c in sys'.sent && c.Commit? && c.signer == m.signer && c.view.round < m.view.round
      ensures m.latestPC.Some?
    {
      if c !in sys.sent {
        NewCommit(g, sys, step, c);
      }
    }
  }

  lemma NewRoundChange(g: Setting, sys: System, id: Address, a: Action, m: Message)
    requires Inv(g, sys) && LockInv(g, sys) && CanStep(g, sys, NodeStep(id, a))
    requires m in Outs(id, sys.nodes[id], a) && m.RoundChange?
    ensures m.from in sys.nodes && RoundChangeOk(g, After(g, sys, NodeStep(id, a)), m)
  {
    var s := sys.nodes[id];
    var sys' := After(g, sys, NodeStep(id, a));
    if a.Expire? {
      assert NodeInv(g.b, id, g.height, s);
      assert forall c | c in sys'.sent && c.Commit? :: c in sys.sent;
      assert m.latestPC.Some? ==> LockRound(m) == s.latestPC.value.proposal.value.view.round;
    }
  }

  lemma BackingGrows(g: Setting, sys: System, step: Step)
    requires CanStep(g, sys, step)
    ensures sys.backing.Keys <= After(g, sys, step).backing.Keys
    ensures forall r | r in sys.backing :: After(g, sys, step).backing[r] == sys.backing[r]
  {
  }

  /** After a proposal is accepted by validation, its round is backed. */
  lemma ValidatedIsBacked(g: Setting, sys: System, id: Address, a: Action)
    requires CanStep(g, sys, NodeStep(id, a)) && Validated(a).Some? && Validated(a).value.view.round > 0
    ensures Validated(a).value.view.round in After(g, sys, NodeStep(id, a)).backing
  {
  }

  lemma PreparesStep(g: Setting, sys: System, step: Step)
    requires Inv(g, sys) && LockInv(g, sys) && CanStep(g, sys, step)
    ensures PreparesOk(g, After(g, sys, step))
  {
    var sys' := After(g, sys, step);
    BackingGrows(g, sys, step);
    forall m | m in sys'.sent && SignedByCorrect(g, m) && m.Prepare?
      ensures HashedIn(g.b, m.hash, m.view.round) || exists r :: r in sys'.backing && HashedIn(g.b, m.hash, r)
    {
      if m !in sys.sent {
        NewMessage(g, sys, step, m);
        NewPrepare(g, sys, step.id, step.action, m);
      }
    }
  }

  lemma NewPrepare(g: Setting, sys: System, id: Address, a: Action, m: Message)
    requires Inv(g, sys) && CanStep(g, sys, NodeStep(id, a)) && m in Outs(id, sys.nodes[id], a) && m.Prepare?
    ensures || HashedIn(g.b, m.hash, m.view.round)
            || exists r :: r in After(g, sys, NodeStep(id, a)).backing && HashedIn(g.b, m.hash, r)
  {
    if Validated(a).Some? {
      var p := Validated(a).value;
      assert g.b.hashOf(p.proposal.raw, p.view.round) == Some(m.hash);
      if a.JumpProposal? {
        ValidatedIsBacked(g, sys, id, a);
      }
    }
  }

  /** A correct validator that accepts a proposal is not its proposer, and a jump prepares for another round's hash. */
  lemma SilentStep(g: Setting, sys: System, step: Step)
    requires SeparatesRounds(g.b) && CorrectSilent(g, sys.sent) && Inv(g, sys) && CanStep(g, sys, step)
    ensures CorrectSilent(g, After(g, sys, step).sent)
  {
    var sys' := After(g, sys, step);
    forall m | m in sys'.sent && SignedByCorrect(g, m) ensures !OwnPrepare(g.b, m) {
      if m !in sys.sent {
        NewMessage(g, sys, step, m);
        NewIsSilent(g, sys, step.id, step.action, m);
      }
    }
  }

  lemma NewIsSilent(g: Setting, sys: System, id: Address, a: Action, m: Message)
    requires SeparatesRounds(g.b) && CanStep(g, sys, NodeStep(id, a)) && m in Outs(id, sys.nodes[id], a)
    ensures !OwnPrepare(g.b, m)
  {
    if a.JumpProposal? {
      var p := a.proposal;
      assert g.b.hashOf(p.proposal.raw, p.view.round) == Some(m.hash);
    }
  }

  lemma NobodySpoke(g: Setting)
    ensures CorrectSilent(g, Start(g).sent)
  {
  }

  /** In every execution, whatever the faulty validators do, correct validators send no PREPARE of that kind. */
  lemma {:induction false} CorrectAreSilent(g: Setting, e: Execution, i: nat)
    requires SeparatesRounds(g.b) && IsExecution(g, e) && i < |e.states|
    ensures CorrectSilent(g, e.states[i].sent)
  {
    hide SeparatesRounds, Inv, CorrectSilent, CanStep, After;
    if i == 0 {
      NobodySpoke(g);
    } else {
      CorrectAreSilent(g, e, i - 1);
      ReachableInv(g, e, i - 1);
      SilentStep(g, e.states[i - 1], e.steps[i - 1]);
    }
  }

  lemma BackedStep(g: Setting, sys: System, step: Step, r: nat, q: set<Address>)
    requires Inv(g, sys) && CanStep(g, sys, step) && Backed(g, sys, r, q)
    ensures Backed(g, After(g, sys, step), r, q)
  {
    var sys' := After(g, sys, step);
    forall c | c in q && c in g.correct
      ensures c in sys'.nodes && sys'.nodes[c].view.round >= r
      ensures forall m | m in sys'.sent && m.Commit? && m.signer == Some(c) :: m.view.round >= r
    {
      NodeMovesForward(g, sys, step, c);
      forall m | m in sys'.sent && m.Commit? && m.signer == Some(c) ensures m.view.round >= r {
        if m !in sys.sent {
          NewCommit(g, sys, step, m);
        }
      }
    }
  }

  lemma BackingStep(g: Setting, sys: System, step: Step)
    requires Assumptions(g) && Inv(g, sys) && LockInv(g, sys) && FaultySilent(g, sys.sent) && CanStep(g, sys, step)
    ensures BackingOk(g, After(g, sys, step))
  {
    hide WellFormed, SeparatesRounds, RoundChangesOk, NodesBacked, CommitsBacked, CorrectSilent, PreparesOk, FaultySilent,
      NoForgery, HeldWasSent, SentOk, CommitsUnique, FinalsOk;
    var sys' := After(g, sys, step);
    BackingGrows(g, sys, step);
    forall r | r in sys'.backing ensures Backed(g, sys', r, sys'.backing[r]) {
      if r !in sys.backing {
        var m := Validated(step.action).value;
        var s := sys.nodes[step.id];
        assert NodeInv(g.b, step.id, g.height, s);
        FirstAcceptance(g, sys, step.id, m);
      }
      BackedStep(g, sys, step, r, sys'.backing[r]);
    }
  }

  lemma NodesBackedStep(g: Setting, sys: System, step: Step)
    requires Inv(g, sys) && LockInv(g, sys) && CanStep(g, sys, step)
    ensures NodesBacked(g, After(g, sys, step))
  {
    var sys' := After(g, sys, step);
    BackingGrows(g, sys, step);
    if step.NodeStep? {
      NodeBackedNext(g, sys, step.id, step.action);
    }
  }

  lemma NodeBackedNext(g: Setting, sys: System, id: Address, a: Action)
    requires NodesOk(g, sys) && NodesBacked(g, sys) && CanStep(g, sys, NodeStep(id, a))
    ensures var s := Next(sys.nodes[id], a);
            s.name != NewRound && s.view.round > 0 && !IsProposer(g.b, id, s.view.round)
            ==> s.view.round in After(g, sys, NodeStep(id, a)).backing
  {
    BackingGrows(g, sys, NodeStep(id, a));
    if Validated(a).Some? && Validated(a).value.view.round > 0 {
      ValidatedIsBacked(g, sys, id, a);
    }
  }

  lemma CommitsBackedStep(g: Setting, sys: System, step: Step)
    requires Inv(g, sys) && LockInv(g, sys) && CanStep(g, sys, step)
    ensures CommitsBacked(g, After(g, sys, step))
  {
    var sys' := After(g, sys, step);
    BackingGrows(g, sys, step);
    forall m | m in sys'.sent && m.Commit? && SignedByCorrect(g, m)
               && m.view.round > 0 && !IsProposer(g.b, m.from, m.view.round)
      ensures m.view.round in sys'.backing
    {
      if m !in sys.sent {
        NewCommit(g, sys, step, m);
        assert sys.nodes[step.id].name == Preparing;
      }
    }
  }

  lemma LockStep(g: Setting, sys: System, step: Step)
    requires Assumptions(g) && Inv(g, sys) && LockInv(g, sys) && FaultySilent(g, sys.sent) && CanStep(g, sys, step)
    ensures LockInv(g, After(g, sys, step))
  {
    RoundChangesStep(g, sys, step);
    PreparesStep(g, sys, step);
    SilentStep(g, sys, step);
    BackingStep(g, sys, step);
    NodesBackedStep(g, sys, step);
    CommitsBackedStep(g, sys, step);
  }

  lemma {:induction false} SentMonotone(g: Setting, e: Execution, i: nat, j: nat)
    requires IsExecution(g, e) && i <= j < |e.states|
    ensures e.states[i].sent <= e.states[j].sent
  {
    if i < j {
      SentMonotone(g, e, i, j - 1);
      SentGrows(g, e.states[j - 1], e.steps[j - 1]);
    }
  }

  lemma {:induction false} ReachableLockInv(g: Setting, e: Execution, i: nat)
    requires Assumptions(g) && IsExecution(g, e) && i < |e.states| && FaultySilent(g, e.states[i].sent)
    ensures LockInv(g, e.states[i])
  {
    if i > 0 {
      SentMonotone(g, e, i - 1, i);
      ReachableLockInv(g, e, i - 1);
      ReachableInv(g, e, i - 1);
      LockStep(g, e.states[i - 1], e.steps[i - 1]);
    }
  }

  // ---------- agreement ----------

  /** Two correct validators committed, so one of them validated the proposal instead of building it. */
  lemma FinalIsBacked(g: Setting, sys: System, f: Final)
    requires Assumptions(g) && Inv(g, sys) && LockInv(g, sys) && f in sys.finals && f.round > 0
    ensures f.round in sys.backing
  {
    FinalSigners(g, sys.sent, f);
    var a := CorrectVoter(g, Senders(f.commits), f.round);
    var m :| m in f.commits && m.from == a;
    assert m in sys.sent && SignedByCorrect(g, m);
  }

  /** At most one round is finalized. */
  lemma OneFinalRound(g: Setting, sys: System, f1: Final, f2: Final)
    requires Assumptions(g) && Inv(g, sys) && LockInv(g, sys)
    requires f1 in sys.finals && f2 in sys.finals
    ensures f1.round >= f2.round
  {
    if f1.round < f2.round {
      FinalIsBacked(g, sys, f2);
      FinalSigners(g, sys.sent, f1);
      var c := CorrectInBothQuorums(g, Senders(f1.commits), sys.backing[f2.round]);
      assert false;
    }
  }

  /**
   Safety over whole executions: any two correct validators that ever reach fin
   at this height, in whatever rounds, did so in the same round and for the
   same proposal hash.
   */
  lemma AgreementAcrossRounds(g: Setting, e: Execution, i: nat, f1: Final, f2: Final)
    requires Assumptions(g) && IsExecution(g, e) && i < |e.states| && FaultySilent(g, e.states[i].sent)
    requires f1 in e.states[i].finals && f2 in e.states[i].finals
    ensures f1.round == f2.round && f1.hash == f2.hash
  {
    ReachableInv(g, e, i);
    ReachableLockInv(g, e, i);
    OneFinalRound(g, e.states[i], f1, f2);
    OneFinalRound(g, e.states[i], f2, f1);
    AgreementInRound(g, e, i, f1, f2);
  }

  /**
   Every ROUND-CHANGE of a correct validator passes the receivers' check, so a
   proposer counting them toward a certificate never loses one.
   */
  lemma HonestRoundChangePasses(g: Setting, e: Execution, i: nat, rc: Message)
    requires Assumptions(g) && IsExecution(g, e) && i < |e.states| && FaultySilent(g, e.states[i].sent)
    requires rc in e.states[i].sent && SignedByCorrect(g, rc) && rc.RoundChange?
    ensures ValidRoundChange(g.b, rc, g.height)
  {
    ReachableInv(g, e, i);
    ReachableLockInv(g, e, i);
    HonestPasses(g, e.states[i], rc);
  }

  lemma HonestPasses(g: Setting, sys: System, rc: Message)
    requires Inv(g, sys) && LockInv(g, sys) && FaultySilent(g, sys.sent)
    requires rc in sys.sent && SignedByCorrect(g, rc) && rc.RoundChange?
    ensures ValidRoundChange(g.b, rc, g.height)
  {
    hide PreparesOk, CorrectSilent, BackingOk, NodesBacked, CommitsBacked, FaultySilent, Inv, IsProposer;
    assert RoundChangeOk(g, sys, rc);
    if rc.latestPC.Some? {
      HonestLock(g, sys, rc, rc.view);
      LockIsValid(g, rc);
    }
  }

  lemma LockIsValid(g: Setting, rc: Message)
    requires rc.RoundChange? && rc.latestPC.Some? && Locks(g.b, rc, rc.view.round, g.height)
    requires rc.lastPrepared == Some(rc.latestPC.value.proposal.value.proposal)
    requires BuiltPC(g.b, rc.latestPC.value, View(g.height, LockRound(rc)))
    ensures ValidRoundChange(g.b, rc, g.height)
  {
  }

  /** The optimal quorum meets the assumptions for every set of two or more validators. */
  lemma OptimalQuorumSuffices(g: Setting)
    requires Distinct(g.b.validators) && g.correct <= Elements(g.b.validators) && |g.b.validators| >= 2
    requires |Faulty(g)| <= Quorum.MaxFaulty(|g.b.validators|)
    requires g.b.quorum == Quorum.OptimalSize(|g.b.validators|)
    ensures WellFormed(g) && g.b.quorum >= |Faulty(g)| + 2
  {
  }
}
