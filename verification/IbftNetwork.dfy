/**
 Validators and an adversary exchanging messages at one height. The network
 keeps everything ever sent; correct validators follow the node's state
 machine, and everybody else may send anything they can sign.
 */
module IbftNetwork {
  import opened Common
  import opened IbftMessages
  import opened IbftChecks
  import opened IbftNode
  import IbftStore
  import Quorum

  /** A validator's entry into fin: the round, the accepted hash and the COMMITs it counted. */
  datatype Final = Final(id: Address, round: nat, hash: Hash, commits: seq<Message>)

  /**
   `finals` records every entry into fin. `backing` records, per round above
   zero, who signed the round-change certificate of the first proposal that a
   correct validator accepted in that round.
   */
  datatype System = System(
    nodes: map<Address, NodeState>,
    sent: set<Message>,
    finals: set<Final>,
    backing: map<nat, set<Address>>)

  datatype Step = NodeStep(id: Address, action: Action) | Byzantine(message: Message)

  /** Who takes part: which validators are correct, and at which height. */
  datatype Setting = Setting(b: Backend, correct: set<Address>, height: nat)

  function Faulty(g: Setting): set<Address> {
    Elements(g.b.validators) - g.correct
  }

  ghost predicate WellFormed(g: Setting) {
    && Distinct(g.b.validators) && g.correct <= Elements(g.b.validators)
    && 2 * g.b.quorum > |g.b.validators| + |Faulty(g)|
  }

  function Start(g: Setting): System {
    System(map id | id in g.correct :: Init(g.height), {}, {}, map[])
  }

  // ---------- signatures ----------

  function CertParts(c: Option<Certificate>): set<Message> {
    if c == None then {}
    else
      (if c.value.proposal.Some? then {c.value.proposal.value} else {})
      + (if c.value.prepares.Some? then Elements(c.value.prepares.value) else {})
  }

  /** A message with the signed messages it carries: certificates, and the ones inside those. */
  ghost function Parts(m: Message): set<Message> {
    {m} +
    match m
    case PrePrepare(_, _, _, _, _, Some(rcc)) =>
      Elements(rcc) + set rc, x | rc in rcc && rc.RoundChange? && x in CertParts(rc.latestPC) :: x
    case RoundChange(_, _, _, _, pc) => CertParts(pc)
    case _ => {}
  }

  predicate SignedByCorrect(g: Setting, m: Message) {
    m.signer.Some? && m.signer.value in g.correct
  }

  /** Nobody can sign for a correct validator. */
  ghost predicate Forgeless(g: Setting, sent: set<Message>, m: Message) {
    forall x | x in Parts(m) && SignedByCorrect(g, x) :: x in sent
  }

  // ---------- steps ----------

  ghost predicate CanStep(g: Setting, sys: System, step: Step) {
    match step
    case NodeStep(id, a) => id in sys.nodes && Enabled(true, g.b, id, sys.nodes[id], a, sys.sent)
    case Byzantine(m) => Forgeless(g, sys.sent, m)
  }

  /** The proposal a step accepts by validation, if it accepts one. */
  ghost function Validated(a: Action): Option<Message> {
    match a
    case Accept(m) => Some(m)
    case JumpProposal(m) => Some(m)
    case _ => None
  }

  ghost function NewBacking(backing: map<nat, set<Address>>, a: Action): map<nat, set<Address>> {
    match Validated(a)
    case Some(m) =>
      if m.view.round > 0 && m.view.round !in backing && m.PrePrepare? && m.rcc.Some?
      then backing[m.view.round := Senders(m.rcc.value)] else backing
    case None => backing
  }

  ghost function After(g: Setting, sys: System, step: Step): System
    requires CanStep(g, sys, step)
  {
    match step
    case NodeStep(id, a) =>
      var s := sys.nodes[id];
      System(
        sys.nodes[id := Next(s, a)],
        sys.sent + Outs(id, s, a),
        if a.Committed? then sys.finals + {Final(id, s.view.round, s.proposalMessage.value.hash, a.commits)} else sys.finals,
        NewBacking(sys.backing, a))
    case Byzantine(m) => sys.(sent := sys.sent + {m})
  }

  /** An execution: the systems it passes and the steps between them. */
  datatype Execution = Execution(states: seq<System>, steps: seq<Step>)

  ghost predicate IsExecution(g: Setting, e: Execution) {
    && |e.states| == |e.steps| + 1
    && e.states[0] == Start(g)
    && forall i | 0 <= i < |e.steps| ::
         CanStep(g, e.states[i], e.steps[i]) && e.states[i + 1] == After(g, e.states[i], e.steps[i])
  }

  // ---------- invariants ----------

  ghost predicate NodesOk(g: Setting, sys: System) {
    && sys.nodes.Keys == g.correct
    && forall id | id in sys.nodes :: NodeInv(g.b, id, g.height, sys.nodes[id])
  }

  /** What a correct validator holds on to was sent. */
  ghost predicate HeldWasSent(g: Setting, sys: System) {
    forall id | id in sys.nodes ::
         && CertParts(sys.nodes[id].latestPC) <= sys.sent
         && (sys.nodes[id].proposalMessage.Some? ==> sys.nodes[id].proposalMessage.value in sys.sent)
  }

  ghost predicate NoForgery(g: Setting, sys: System) {
    forall m | m in sys.sent :: Forgeless(g, sys.sent, m)
  }

  /** What a correct validator's own COMMIT says about its state from then on. */
  ghost predicate CommitOk(m: Message, s: NodeState, height: nat) {
    m.Commit? ==>
      && m.view.height == height && m.view.round <= s.view.round
      && (m.view.round == s.view.round ==>
            s.name in {Committing, Fin} && s.proposalMessage.Some? && s.proposalMessage.value.PrePrepare?
            && m.hash == s.proposalMessage.value.hash)
      && s.latestPC.Some? && s.latestPC.value.proposal.Some?
      && s.latestPC.value.proposal.value.view.round >= m.view.round
  }

  ghost predicate SentOk(g: Setting, sys: System) {
    && sys.nodes.Keys == g.correct
    && forall m | m in sys.sent && SignedByCorrect(g, m) ::
         m.from == m.signer.value && CommitOk(m, sys.nodes[m.from], g.height)
  }

  /** One COMMIT hash per correct validator and round. */
  ghost predicate CommitsUnique(g: Setting, sys: System) {
    forall m, n | m in sys.sent && n in sys.sent && m.Commit? && n.Commit? && SignedByCorrect(g, m)
                  && m.signer == n.signer && m.view == n.view :: m.hash == n.hash
  }

  ghost predicate FinalOk(g: Setting, sent: set<Message>, f: Final) {
    && |f.commits| >= g.b.quorum && IbftStore.DistinctSenders(f.commits)
    && forall m | m in f.commits ::
         && m in sent && m.Commit? && m.view == View(g.height, f.round) && m.hash == f.hash
         && IsValidValidator(g.b, m)
  }

  /** Finals carry their evidence, and a node in fin has its final recorded. */
  ghost predicate FinalsOk(g: Setting, sys: System) {
    && (forall f | f in sys.finals :: FinalOk(g, sys.sent, f))
    && forall id | id in sys.nodes && sys.nodes[id].name == Fin :: FinRecorded(sys, id)
  }

  ghost predicate FinRecorded(sys: System, id: Address)
    requires id in sys.nodes
  {
    var s := sys.nodes[id];
    s.proposalMessage.Some? && s.proposalMessage.value.PrePrepare?
    && exists f :: f in sys.finals && f.id == id && f.round == s.view.round && f.hash == s.proposalMessage.value.hash
  }

  ghost predicate Inv(g: Setting, sys: System) {
    NodesOk(g, sys) && HeldWasSent(g, sys) && NoForgery(g, sys) && SentOk(g, sys) && CommitsUnique(g, sys) && FinalsOk(g, sys)
  }

  lemma StartInv(g: Setting)
    ensures Inv(g, Start(g))
  {
    forall id | id in g.correct ensures NodeInv(g.b, id, g.height, Init(g.height)) {
      InitInv(g.b, id, g.height);
    }
  }

  /** Messages only ever accumulate. */
  lemma SentGrows(g: Setting, sys: System, step: Step)
    requires CanStep(g, sys, step)
    ensures sys.sent <= After(g, sys, step).sent
  {
  }

  /** Anything new with a correct signature was sent by the node that moved. */
  lemma NewMessage(g: Setting, sys: System, step: Step, m: Message)
    requires CanStep(g, sys, step) && m in After(g, sys, step).sent && m !in sys.sent && SignedByCorrect(g, m)
    ensures step.NodeStep? && m in Outs(step.id, sys.nodes[step.id], step.action)
    ensures m.signer == Some(step.id) && m.from == step.id
  {
  }

  lemma NodesStep(g: Setting, sys: System, step: Step)
    requires Inv(g, sys) && CanStep(g, sys, step)
    ensures NodesOk(g, After(g, sys, step))
  {
    if step.NodeStep? {
      NextKeepsInv(g.b, step.id, g.height, sys.nodes[step.id], step.action, sys.sent);
    }
  }

  lemma HeldStep(g: Setting, sys: System, step: Step)
    requires Inv(g, sys) && CanStep(g, sys, step)
    ensures HeldWasSent(g, After(g, sys, step))
  {
    hide NoForgery, SentOk, CommitsUnique, FinalsOk, CertParts;
    SentGrows(g, sys, step);
    if step.NodeStep? {
      HeldNext(g, sys, step.id, step.action);
    }
  }

  /** What a node holds after a step it held before, received or sends now. */
  lemma HeldNext(g: Setting, sys: System, id: Address, a: Action)
    requires NodesOk(g, sys) && HeldWasSent(g, sys) && CanStep(g, sys, NodeStep(id, a))
    ensures var s, sent := Next(sys.nodes[id], a), sys.sent + Outs(id, sys.nodes[id], a);
            CertParts(s.latestPC) <= sent && (s.proposalMessage.Some? ==> s.proposalMessage.value in sent)
  {
    hide IsProposer, Acceptable, IsValidProposalHash, IsValidCommittedSeal, ExtendedRCC;
    assert NodeInv(g.b, id, g.height, sys.nodes[id]);
  }

  lemma OutsForgeless(g: Setting, sys: System, id: Address, a: Action)
    requires Inv(g, sys) && CanStep(g, sys, NodeStep(id, a))
    ensures forall m | m in Outs(id, sys.nodes[id], a) :: Forgeless(g, After(g, sys, NodeStep(id, a)).sent, m)
  {
    hide SentOk, CommitsUnique, FinalsOk, NodeInv, Acceptable, ExtendedRCC, PrepareQuorum, CommitQuorum;
    if a.Propose? {
      var m := a.proposal;
      forall x | x in Parts(m) && SignedByCorrect(g, x) ensures x == m || x in sys.sent {
        if x != m && x !in m.rcc.value {
          var rc :| rc in m.rcc.value && rc.RoundChange? && x in CertParts(rc.latestPC);
          assert rc in sys.sent;
          assert x in Parts(rc);
        }
      }
    }
  }

  lemma ForgeryStep(g: Setting, sys: System, step: Step)
    requires Inv(g, sys) && CanStep(g, sys, step)
    ensures NoForgery(g, After(g, sys, step))
  {
    SentGrows(g, sys, step);
    if step.NodeStep? {
      OutsForgeless(g, sys, step.id, step.action);
    }
  }

  lemma SentStep(g: Setting, sys: System, step: Step)
    requires Inv(g, sys) && CanStep(g, sys, step)
    ensures SentOk(g, After(g, sys, step))
  {
    hide HeldWasSent, NoForgery, CommitsUnique, FinalsOk, Acceptable, ExtendedRCC;
    var sys' := After(g, sys, step);
    forall m | m in sys'.sent && SignedByCorrect(g, m)
      ensures m.from == m.signer.value && CommitOk(m, sys'.nodes[m.from], g.height)
    {
      if m in sys.sent {
        if step.NodeStep? && m.from == step.id {
          OldCommitStep(g, sys, step.id, step.action, m);
        }
      } else {
        NewMessage(g, sys, step, m);
      }
    }
  }

  lemma OldCommitStep(g: Setting, sys: System, id: Address, a: Action, m: Message)
    requires Inv(g, sys) && CanStep(g, sys, NodeStep(id, a))
    requires CommitOk(m, sys.nodes[id], g.height)
    ensures CommitOk(m, Next(sys.nodes[id], a), g.height)
  {
  }

  lemma UniqueStep(g: Setting, sys: System, step: Step)
    requires Inv(g, sys) && CanStep(g, sys, step)
    ensures CommitsUnique(g, After(g, sys, step))
  {
    hide HeldWasSent, NoForgery, FinalsOk, NodeInv, Acceptable, ExtendedRCC, CommitQuorum;
    var sys' := After(g, sys, step);
    forall m, n | m in sys'.sent && n in sys'.sent && m.Commit? && n.Commit? && SignedByCorrect(g, m)
                  && m.signer == n.signer && m.view == n.view
      ensures m.hash == n.hash
    {
      if m !in sys.sent {
        NewMessage(g, sys, step, m);
      }
      if n !in sys.sent {
        NewMessage(g, sys, step, n);
      }
    }
  }

  lemma FinalsStep(g: Setting, sys: System, step: Step)
    requires Inv(g, sys) && CanStep(g, sys, step)
    ensures FinalsOk(g, After(g, sys, step))
  {
    SentGrows(g, sys, step);
    if step.NodeStep? && step.action.Committed? {
      var s := sys.nodes[step.id];
      assert NodeInv(g.b, step.id, g.height, s);
      assert FinalOk(g, sys.sent, Final(step.id, s.view.round, s.proposalMessage.value.hash, step.action.commits));
    }
    FinRecordedStep(g, sys, step);
  }

  lemma FinRecordedStep(g: Setting, sys: System, step: Step)
    requires Inv(g, sys) && CanStep(g, sys, step)
    ensures var sys' := After(g, sys, step);
            forall id | id in sys'.nodes && sys'.nodes[id].name == Fin :: FinRecorded(sys', id)
  {
    var sys' := After(g, sys, step);
    assert sys.finals <= sys'.finals;
    forall id | id in sys'.nodes && sys'.nodes[id].name == Fin ensures FinRecorded(sys', id) {
      assert NodeInv(g.b, id, g.height, sys.nodes[id]);
      if step.NodeStep? && step.id == id && step.action.Committed? {
        var s := sys.nodes[id];
        assert Final(id, s.view.round, s.proposalMessage.value.hash, step.action.commits) in sys'.finals;
      } else {
        assert FinRecorded(sys, id);
      }
    }
  }

  lemma StepInv(g: Setting, sys: System, step: Step)
    requires Inv(g, sys) && CanStep(g, sys, step)
    ensures Inv(g, After(g, sys, step))
  {
    NodesStep(g, sys, step);
    HeldStep(g, sys, step);
    ForgeryStep(g, sys, step);
    SentStep(g, sys, step);
    UniqueStep(g, sys, step);
    FinalsStep(g, sys, step);
  }

  lemma {:induction false} ReachableInv(g: Setting, e: Execution, i: nat)
    requires IsExecution(g, e) && i < |e.states|
    ensures Inv(g, e.states[i])
  {
    if i == 0 {
      StartInv(g);
    } else {
      ReachableInv(g, e, i - 1);
      StepInv(g, e.states[i - 1], e.steps[i - 1]);
    }
  }

  // ---------- agreement within a round ----------

  lemma CorrectInBothQuorums(g: Setting, p: set<Address>, q: set<Address>) returns (c: Address)
    requires WellFormed(g)
    requires p <= Elements(g.b.validators) && q <= Elements(g.b.validators)
    requires |p| >= g.b.quorum && |q| >= g.b.quorum
    ensures c in p && c in q && c in g.correct
  {
    DistinctSize(g.b.validators);
    c := Quorum.CorrectInBoth(Elements(g.b.validators), p, q, Faulty(g));
  }

  lemma FinalSigners(g: Setting, sent: set<Message>, f: Final)
    requires FinalOk(g, sent, f)
    ensures Senders(f.commits) <= Elements(g.b.validators) && |Senders(f.commits)| >= g.b.quorum
  {
    SendersCount(f.commits);
  }

  /**
   Safety within a round: whatever the faulty validators do, two correct ones
   that reach fin in the same round did so for the same proposal hash.
   */
  lemma AgreementInRound(g: Setting, e: Execution, i: nat, f1: Final, f2: Final)
    requires WellFormed(g) && IsExecution(g, e) && i < |e.states|
    requires f1 in e.states[i].finals && f2 in e.states[i].finals && f1.round == f2.round
    ensures f1.hash == f2.hash
  {
    var sys := e.states[i];
    ReachableInv(g, e, i);
    FinalSigners(g, sys.sent, f1);
    FinalSigners(g, sys.sent, f2);
    var c := CorrectInBothQuorums(g, Senders(f1.commits), Senders(f2.commits));
    var m1 :| m1 in f1.commits && m1.from == c;
    var m2 :| m2 in f2.commits && m2.from == c;
    assert m1 in sys.sent && m2 in sys.sent && SignedByCorrect(g, m1);
  }

  /** In particular two correct validators that are in fin at the same time and round hold the same hash. */
  lemma FinNodesAgree(g: Setting, e: Execution, i: nat, p: Address, q: Address)
    requires WellFormed(g) && IsExecution(g, e) && i < |e.states|
    requires p in e.states[i].nodes && q in e.states[i].nodes
    requires e.states[i].nodes[p].name == Fin && e.states[i].nodes[q].name == Fin
    requires e.states[i].nodes[p].view == e.states[i].nodes[q].view
    ensures var s, t := e.states[i].nodes[p].proposalMessage, e.states[i].nodes[q].proposalMessage;
            s.Some? && t.Some? && s.value.PrePrepare? && t.value.PrePrepare? && s.value.hash == t.value.hash
  {
    ReachableInv(g, e, i);
    var sys := e.states[i];
    assert FinRecorded(sys, p) && FinRecorded(sys, q);
    var f :| f in sys.finals && f.id == p && f.round == sys.nodes[p].view.round
             && f.hash == sys.nodes[p].proposalMessage.value.hash;
    var h :| h in sys.finals && h.id == q && h.round == sys.nodes[q].view.round
             && h.hash == sys.nodes[q].proposalMessage.value.hash;
    AgreementInRound(g, e, i, f, h);
  }
}
