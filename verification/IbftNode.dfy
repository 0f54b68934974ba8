/**
 One validator's state machine for one height: new round, prepare, commit,
 fin, with the moves between rounds.
 */
module IbftNode {
  import opened Common
  import opened IbftMessages
  import opened IbftChecks
  import IbftStore

  datatype Name = NewRound | Preparing | Committing | Fin

  function Rank(n: Name): nat {
    match n
    case NewRound => 0
    case Preparing => 1
    case Committing => 2
    case Fin => 3
  }

  /** `running` says that the worker of the current round has got past its start. */
  datatype NodeState = NodeState(
    view: View,
    name: Name,
    roundStarted: bool,
    running: bool,
    proposalMessage: Option<Message>,
    latestPC: Option<Certificate>,
    latestPrepared: Option<Proposal>,
    seals: seq<Seal>)

  function Init(height: nat): NodeState {
    NodeState(View(height, 0), NewRound, false, false, None, None, None, [])
  }

  /** What can happen to a node, with the messages it acts on. */
  datatype Action =
    | StartRound
    | Propose(proposal: Message)
    | Accept(proposal: Message)
    | Prepared(prepares: seq<Message>)
    | Committed(commits: seq<Message>)
    | Expire
    | JumpRCC(rcc: seq<Message>)
    | JumpProposal(proposal: Message)

  /** A proposal built by its own proposer; later rounds repeat the first prepared proposal reported. */
  ghost predicate OwnProposal(b: Backend, id: Address, view: View, m: Message, available: set<Message>) {
    && m.PrePrepare? && m.view == view && m.from == id && m.signer == Some(id)
    && m.proposal.round == view.round
    && IsValidProposalHash(b, m.proposal, m.hash)
    && (view.round == 0 ==> m.rcc == None)
    && (view.round > 0 ==>
          && m.rcc.Some? && (forall rc | rc in m.rcc.value :: rc in available && rc.RoundChange?)
          && forall i | 0 <= i < |m.rcc.value| && FirstPrepared(m.rcc.value, i) ::
               m.proposal.raw == m.rcc.value[i].lastPrepared.value.raw)
  }

  predicate CarriesPrepared(m: Message) {
    m.RoundChange? && m.latestPC.Some? && m.lastPrepared.Some?
  }

  predicate FirstPrepared(rcc: seq<Message>, i: nat) {
    && i < |rcc| && CarriesPrepared(rcc[i])
    && forall j | 0 <= j < i :: !CarriesPrepared(rcc[j])
  }

  /**
   Which prepared proposal a proposer repeats. The scan compares the rounds of
   the ROUND-CHANGE messages themselves, all equal, so the first one wins.
   */
  method PreviousProposal(rcc: seq<Message>, round: nat) returns (previous: Option<Raw>)
    requires round > 0
    requires forall m | m in rcc :: m.RoundChange? && m.view.round == round
    ensures previous == None <==> forall i | 0 <= i < |rcc| :: !CarriesPrepared(rcc[i])
    ensures previous.Some? ==> exists i :: 0 <= i < |rcc| && FirstPrepared(rcc, i) && previous.value == rcc[i].lastPrepared.value.raw
  {
    previous := None;
    var maxRound := 0;
    for i := 0 to |rcc|
      invariant previous == None <==> forall j | 0 <= j < i :: !CarriesPrepared(rcc[j])
      invariant previous == None <==> maxRound == 0
      invariant previous.Some? ==>
          && maxRound == round
          && exists j :: 0 <= j < i && FirstPrepared(rcc, j) && previous.value == rcc[j].lastPrepared.value.raw
    {
      var msg := rcc[i];
      assert msg in rcc;
      if msg.latestPC.Some? && msg.view.round > maxRound && msg.lastPrepared.Some? {
        assert FirstPrepared(rcc, i);
        previous := Some(msg.lastPrepared.value.raw);
        maxRound := msg.view.round;
      }
    }
  }

  /** A proposal on a certificate of another round is refused by everybody. */
  lemma OtherRoundIsRefused(b: Backend, id: Address, m: Message, view: View)
    requires view.round > 0 && m.PrePrepare? && m.rcc.Some? && m.rcc.value != [] && m.rcc.value[0].view.round != view.round
    ensures !Acceptable(b, id, m, view)
  {
    assert m.rcc.value[0] in m.rcc.value;
  }

  lemma FirstIsUnique(rcc: seq<Message>)
    ensures forall i: nat, j: nat | FirstPrepared(rcc, i) && FirstPrepared(rcc, j) :: i == j
  {
  }

  predicate Acceptable(b: Backend, id: Address, m: Message, view: View) {
    if view.round == 0 then ValidProposal0(b, id, m, view) else ValidProposal(b, id, m, view)
  }

  /** A received message: delivered, and admitted to the store. */
  ghost predicate Received(b: Backend, m: Message, available: set<Message>) {
    m in available && IsValidValidator(b, m)
  }

  /** PREPARE messages that the store returns as valid for the accepted proposal. */
  ghost predicate PrepareQuorum(b: Backend, s: NodeState, ps: seq<Message>, available: set<Message>) {
    && s.proposalMessage.Some? && s.proposalMessage.value.PrePrepare?
    && IbftStore.DistinctSenders(ps)
    && HasQuorum(b, ps, PREPARE)
    && forall m | m in ps ::
         && Received(b, m, available) && m.Prepare? && m.view == s.view
         && IsValidProposalHash(b, s.proposalMessage.value.proposal, m.hash)
  }

  ghost predicate CommitQuorum(b: Backend, s: NodeState, cs: seq<Message>, available: set<Message>) {
    && s.proposalMessage.Some? && s.proposalMessage.value.PrePrepare?
    && IbftStore.DistinctSenders(cs)
    && HasQuorum(b, cs, COMMIT)
    && forall m | m in cs ::
         && Received(b, m, available) && m.Commit? && m.view == s.view
         && IsValidProposalHash(b, s.proposalMessage.value.proposal, m.hash)
         && IsValidCommittedSeal(b, m.hash, m.from, m.seal)
  }

  /** The check of a ROUND-CHANGE message: its certificate first, then the proposal sent along. */
  function RoundChangeCheck(b: Backend, m: Message, height: nat): Check {
    if !m.RoundChange? || !ValidPC(b, m.latestPC, m.view.round, height) then Fails
    else ProposalCheck(b, m.lastPrepared, m.latestPC)
  }

  /** A ROUND-CHANGE message whose certificate checks out and matches the proposal sent along. */
  predicate ValidRoundChange(b: Backend, m: Message, height: nat) {
    RoundChangeCheck(b, m, height) == Passes
  }

  /** A ROUND-CHANGE message with a valid certificate and no proposal. */
  predicate Headless(b: Backend, m: Message, height: nat) {
    m.RoundChange? && m.latestPC.Some? && m.lastPrepared == None && ValidPC(b, m.latestPC, m.view.round, height)
  }

  lemma PanicsIff(b: Backend, m: Message, height: nat)
    ensures RoundChangeCheck(b, m, height) == Panics <==> Headless(b, m, height)
  {
  }

  method CheckRoundChange(b: Backend, m: Message, height: nat) returns (r: Check)
    requires m.RoundChange?
    ensures r == RoundChangeCheck(b, m, height)
    ensures r == Panics <==> Headless(b, m, height)
  {
    hide IsProposer, UniqueSenders, SameProposalHash, AllHaveLowerRound, AllHaveSameHeight, AllHaveSameRound, HasQuorum;
    var ok := CheckPC(b, m.latestPC, m.view.round, height);
    if !ok {
      return Fails;
    }
    r := CheckMatches(b, m.lastPrepared, m.latestPC);
  }

  /** What the store's certificate search may hand to a node in state `s`. */
  ghost predicate ExtendedRCC(b: Backend, s: NodeState, rcc: seq<Message>, available: set<Message>) {
    && rcc != [] && IbftStore.DistinctSenders(rcc) && |rcc| >= b.quorum
    && (forall m | m in rcc :: Received(b, m, available) && m.view == rcc[0].view && ValidRoundChange(b, m, s.view.height))
    && rcc[0].view.height == s.view.height
    && rcc[0].view.round > 0
    && !(rcc[0].view.round == s.view.round && s.proposalMessage.Some?)
    // the search is triggered by a ROUND-CHANGE message for a higher round
    && exists m :: Received(b, m, available) && m.RoundChange? && m.view.height == s.view.height && m.view.round > s.view.round
  }

  /**
   When an action can happen. With `strict`, a certificate moves a node only to
   a higher round, as the certificate channel documents; the code itself does
   not compare the rounds.
   */
  ghost predicate Enabled(strict: bool, b: Backend, id: Address, s: NodeState, a: Action, available: set<Message>) {
    match a
    case StartRound => !s.running && !IsProposer(b, id, s.view.round)
    case Propose(m) => !s.running && IsProposer(b, id, s.view.round) && OwnProposal(b, id, s.view, m, available)
    case Accept(m) =>
      && s.running && s.name == NewRound
      && Received(b, m, available) && m.view == s.view && Acceptable(b, id, m, s.view)
    case Prepared(ps) => s.running && s.name == Preparing && PrepareQuorum(b, s, ps, available)
    case Committed(cs) => s.running && s.name == Committing && CommitQuorum(b, s, cs, available)
    case Expire => true
    case JumpRCC(rcc) => ExtendedRCC(b, s, rcc, available) && (strict ==> rcc[0].view.round > s.view.round)
    case JumpProposal(m) =>
      && Received(b, m, available) && m.view.height == s.view.height && m.view.round > s.view.round
      && Acceptable(b, id, m, m.view)
  }

  function MoveTo(s: NodeState, round: nat): NodeState {
    s.(view := View(s.view.height, round), name := NewRound, roundStarted := false, running := false,
       proposalMessage := None)
  }

  function Started(s: NodeState): NodeState {
    if s.roundStarted then s.(running := true)
    else s.(name := NewRound, roundStarted := true, running := true)
  }

  function SealsOf(cs: seq<Message>): seq<Seal>
    requires forall m | m in cs :: m.Commit?
  {
    seq(|cs|, i requires 0 <= i < |cs| => assert cs[i] in cs; cs[i].seal)
  }

  /** The state after an action. */
  ghost function Next(s: NodeState, a: Action): NodeState
    requires a.Committed? ==> forall m | m in a.commits :: m.Commit?
    requires a.Prepared? ==> s.proposalMessage.Some? && s.proposalMessage.value.PrePrepare?
    requires a.JumpRCC? ==> a.rcc != []
  {
    match a
    case StartRound => Started(s)
    case Propose(m) => Started(s).(proposalMessage := Some(m), name := Preparing)
    case Accept(m) => s.(proposalMessage := Some(m), name := Preparing)
    case Prepared(ps) =>
      s.(latestPC := Some(Certificate(s.proposalMessage, Some(ps))),
         latestPrepared := Some(s.proposalMessage.value.proposal),
         name := Committing)
    case Committed(cs) => s.(seals := SealsOf(cs), name := Fin)
    case Expire => MoveTo(s, s.view.round + 1)
    case JumpRCC(rcc) => MoveTo(s, rcc[0].view.round)
    case JumpProposal(m) =>
      MoveTo(s, m.view.round).(proposalMessage := Some(m), name := Preparing, roundStarted := true)
  }

  function PrepareMessage(id: Address, view: View, hash: Hash): Message {
    Prepare(view, id, Some(id), hash)
  }

  function CommitMessage(id: Address, view: View, hash: Hash): Message {
    Commit(view, id, Some(id), hash, Seal(id, hash))
  }

  /** The messages an action multicasts. A jump to a future proposal prepares with the old view. */
  ghost function Outs(id: Address, s: NodeState, a: Action): set<Message>
    requires a.Accept? || a.JumpProposal? ==> a.proposal.PrePrepare?
    requires a.Prepared? ==> s.proposalMessage.Some? && s.proposalMessage.value.PrePrepare?
  {
    match a
    case Propose(m) => {m}
    case Accept(m) => {PrepareMessage(id, s.view, m.hash)}
    case Prepared(_) => {CommitMessage(id, s.view, s.proposalMessage.value.hash)}
    case Expire => {RoundChange(View(s.view.height, s.view.round + 1), id, Some(id), s.latestPrepared, s.latestPC)}
    case JumpProposal(m) => {PrepareMessage(id, s.view, m.hash)}
    case _ => {}
  }

  // ---------- invariants of every run ----------

  /** A proposal accepted in `view`, by validation or by building it. */
  ghost predicate AcceptedIn(b: Backend, m: Message, view: View) {
    && m.PrePrepare? && m.view == view && m.proposal.round == view.round
    && IsValidProposalHash(b, m.proposal, m.hash)
    && IsProposer(b, m.from, view.round) && IsValidValidator(b, m)
  }

  /** Seals of a quorum of distinct validators, all on the accepted hash. */
  ghost predicate SealedByQuorum(b: Backend, s: NodeState)
    requires s.proposalMessage.Some? && s.proposalMessage.value.PrePrepare?
  {
    && |s.seals| >= b.quorum
    && (forall i, j | 0 <= i < j < |s.seals| :: s.seals[i].owner != s.seals[j].owner)
    && forall i | 0 <= i < |s.seals| ::
         s.seals[i].owner in b.validators && s.seals[i].hash == s.proposalMessage.value.hash
  }

  ghost predicate NodeInv(b: Backend, id: Address, height: nat, s: NodeState) {
    && s.view.height == height
    && (!s.roundStarted ==> s.name == NewRound && !s.running)
    && (s.proposalMessage.Some? <==> s.name != NewRound)
    && (s.name != NewRound ==> AcceptedIn(b, s.proposalMessage.value, s.view))
    && (s.name == Fin ==> SealedByQuorum(b, s))
    && (s.latestPC.Some? <==> s.latestPrepared.Some?)
    && (s.latestPC.Some? ==>
          && var c := s.latestPC.value;
          && c.proposal.Some? && c.prepares.Some? && c.proposal.value.PrePrepare?
          && c.proposal.value.view.round <= s.view.round
          && AcceptedIn(b, c.proposal.value, View(height, c.proposal.value.view.round))
          && BuiltPC(b, c, View(height, c.proposal.value.view.round))
          && s.latestPrepared.value == c.proposal.value.proposal)
    && (s.name in {Committing, Fin} ==> s.latestPC.Some? && s.latestPC.value.proposal == s.proposalMessage)
    && (!s.running && s.name != NewRound ==> !IsProposer(b, id, s.view.round))
  }

  lemma InitInv(b: Backend, id: Address, height: nat)
    ensures NodeInv(b, id, height, Init(height))
  {
  }

  lemma AcceptableIsAccepted(b: Backend, id: Address, m: Message, view: View, available: set<Message>)
    requires Received(b, m, available) && m.view == view && Acceptable(b, id, m, view)
    ensures AcceptedIn(b, m, view) && !IsProposer(b, id, view.round)
  {
  }

  lemma CommitSeals(b: Backend, s: NodeState, cs: seq<Message>, available: set<Message>)
    requires CommitQuorum(b, s, cs, available)
    requires IsValidProposalHash(b, s.proposalMessage.value.proposal, s.proposalMessage.value.hash)
    ensures SealedByQuorum(b, s.(seals := SealsOf(cs)))
  {
    forall i | 0 <= i < |cs| ensures cs[i] in cs && cs[i].seal == Seal(cs[i].from, s.proposalMessage.value.hash) {
    }
  }

  /** Every action keeps the invariant. */
  lemma NextKeepsInv(b: Backend, id: Address, height: nat, s: NodeState, a: Action, available: set<Message>)
    requires NodeInv(b, id, height, s) && Enabled(true, b, id, s, a, available)
    ensures NodeInv(b, id, height, Next(s, a))
  {
    match a
    case StartRound =>
    case Propose(m) =>
    case Accept(m) => AcceptableIsAccepted(b, id, m, s.view, available);
    case Prepared(ps) =>
    case Committed(cs) => CommitSeals(b, s, cs, available);
    case Expire =>
    case JumpRCC(rcc) =>
    case JumpProposal(m) => AcceptableIsAccepted(b, id, m, m.view, available);
  }

  /** The round never falls, and within a round the state only moves forward. */
  ghost predicate Forward(s: NodeState, t: NodeState) {
    && t.view.height == s.view.height
    && (t.view.round > s.view.round || (t.view.round == s.view.round && Rank(t.name) >= Rank(s.name)))
  }

  lemma StartKeepsInv(b: Backend, id: Address, height: nat, s: NodeState)
    requires NodeInv(b, id, height, s)
    ensures NodeInv(b, id, height, s.(roundStarted := true)) && (!s.roundStarted ==> s.name == NewRound)
  {
  }

  lemma NextIsForward(b: Backend, id: Address, height: nat, s: NodeState, a: Action, available: set<Message>)
    requires NodeInv(b, id, height, s) && Enabled(true, b, id, s, a, available)
    ensures Forward(s, Next(s, a))
  {
  }

  /** A run of one node: the states it passes, the actions between them, the messages there to act on. */
  datatype Run = Run(states: seq<NodeState>, actions: seq<Action>, inboxes: seq<set<Message>>)

  ghost predicate IsRun(strict: bool, b: Backend, id: Address, height: nat, r: Run) {
    && |r.states| == |r.actions| + 1 == |r.inboxes| + 1
    && r.states[0] == Init(height)
    && forall i | 0 <= i < |r.actions| ::
         && Enabled(strict, b, id, r.states[i], r.actions[i], r.inboxes[i])
         && r.states[i + 1] == Next(r.states[i], r.actions[i])
  }

  /** Every state of every run satisfies the invariant. */
  lemma {:induction false} RunInvariant(b: Backend, id: Address, height: nat, r: Run, i: nat)
    requires IsRun(true, b, id, height, r) && i < |r.states|
    ensures NodeInv(b, id, height, r.states[i])
  {
    if i > 0 {
      RunInvariant(b, id, height, r, i - 1);
      NextKeepsInv(b, id, height, r.states[i - 1], r.actions[i - 1], r.inboxes[i - 1]);
    }
  }

  /** Between any two points of a run the node has only moved forward. */
  lemma {:induction false} RunIsForward(b: Backend, id: Address, height: nat, r: Run, i: nat, j: nat)
    requires IsRun(true, b, id, height, r) && i <= j < |r.states|
    ensures Forward(r.states[i], r.states[j])
  {
    if i < j {
      RunIsForward(b, id, height, r, i, j - 1);
      RunInvariant(b, id, height, r, j - 1);
      NextIsForward(b, id, height, r.states[j - 1], r.actions[j - 1], r.inboxes[j - 1]);
    }
  }

  lemma PrepareStep(b: Backend, id: Address, s: NodeState, ps: seq<Message>, inbox: set<Message>)
    requires NodeInv(b, id, s.view.height, s) && s.running && s.name == Preparing && PrepareQuorum(b, s, ps, inbox)
    ensures Enabled(true, b, id, s, Prepared(ps), inbox)
    ensures NodeInv(b, id, s.view.height, Next(s, Prepared(ps)))
  {
    NextKeepsInv(b, id, s.view.height, s, Prepared(ps), inbox);
  }

  lemma AcceptStep(b: Backend, id: Address, s: NodeState, m: Message, inbox: set<Message>)
    requires NodeInv(b, id, s.view.height, s) && s.running && s.name == NewRound
    requires Received(b, m, inbox) && m.view == s.view && Acceptable(b, id, m, s.view)
    ensures m.PrePrepare? && Enabled(true, b, id, s, Accept(m), inbox)
    ensures NodeInv(b, id, s.view.height, Next(s, Accept(m)))
  {
    NextKeepsInv(b, id, s.view.height, s, Accept(m), inbox);
  }

  lemma CommitStep(b: Backend, id: Address, s: NodeState, cs: seq<Message>, inbox: set<Message>)
    requires NodeInv(b, id, s.view.height, s) && s.running && s.name == Committing && CommitQuorum(b, s, cs, inbox)
    ensures Enabled(true, b, id, s, Committed(cs), inbox)
    ensures NodeInv(b, id, s.view.height, Next(s, Committed(cs)))
  {
    NextKeepsInv(b, id, s.view.height, s, Committed(cs), inbox);
  }

  lemma NoProposalFirst(b: Backend, ps: seq<Message>)
    requires forall m | m in ps :: m.Prepare?
    ensures HasQuorum(b, ps, PREPARE) <==> |ps| >= b.quorum - 1
  {
    assert |ps| > 0 ==> ps[0] in ps;
  }

  lemma CertificateHeight(b: Backend, s: NodeState, rcc: seq<Message>, available: set<Message>)
    requires ExtendedRCC(b, s, rcc, available)
    ensures rcc != [] && rcc[0].view.height == s.view.height
  {
  }

  // ---------- the node itself ----------

  class Node {
    const b: Backend
    const id: Address
    const store: IbftStore.Messages

    var view: View
    var name: Name
    var roundStarted: bool
    var running: bool
    var proposalMessage: Option<Message>
    var latestPC: Option<Certificate>
    var latestPrepared: Option<Proposal>
    var seals: seq<Seal>
    var outbox: seq<Message>

    function State(): NodeState
      reads this
    {
      NodeState(view, name, roundStarted, running, proposalMessage, latestPC, latestPrepared, seals)
    }

    /** Everything in the store, all of it admitted. */
    ghost function Inbox(): set<Message>
      reads store
    {
      set s, a | s in store.slots && a in store.slots[s] :: store.slots[s][a]
    }

    ghost predicate Valid()
      reads this, store
    {
      && store.Valid()
      && (forall m | m in Inbox() :: IsValidValidator(b, m))
      && NodeInv(b, id, view.height, State())
    }

    constructor (b: Backend, id: Address, height: nat)
      ensures Valid() && State() == Init(height) && outbox == [] && fresh(store)
      ensures this.b == b && this.id == id
    {
      this.b, this.id := b, id;
      store := new IbftStore.Messages();
      view, name, roundStarted, running := View(height, 0), NewRound, false, false;
      proposalMessage, latestPC, latestPrepared, seals, outbox := None, None, None, [], [];
    }

    /** Start of a sequence: the state is cleared and messages of earlier heights go. */
    method Clear(height: nat)
      requires store.Valid() && forall m | m in Inbox() :: IsValidValidator(b, m)
      modifies this, store
      ensures Valid() && State() == Init(height) && outbox == old(outbox)
      ensures forall m :: m in Inbox() <==> m in old(Inbox()) && m.view.height >= height
    {
      view, name, roundStarted, running := View(height, 0), NewRound, false, false;
      proposalMessage, latestPC, latestPrepared, seals := None, None, None, [];
      store.PruneByHeight(height);
      InitInv(b, id, height);
      hide NodeInv;
      forall m ensures m in Inbox() <==> m in old(Inbox()) && m.view.height >= height {
        if m in old(Inbox()) && m.view.height >= height {
          var s, a :| s in old(store.slots) && a in old(store.slots)[s] && m == old(store.slots)[s][a];
          assert s in store.slots && store.slots[s][a] == m;
        }
      }
    }

    /** Admits a message of a valid sender for the current round or later. */
    method Receive(m: Message)
      requires Valid()
      modifies store
      ensures Valid() && State() == old(State())
      ensures Inbox() <= old(Inbox()) + {m}
      ensures m in Inbox() <== IsValidValidator(b, m) && m.view.height >= view.height && m.view.round >= view.round
      ensures !(IsValidValidator(b, m) && m.view.height >= view.height && m.view.round >= view.round) ==> Inbox() == old(Inbox())
    {
      if IsValidValidator(b, m) && m.view.height >= view.height && m.view.round >= view.round {
        store.AddMessage(m);
        forall x | x in Inbox() ensures x in old(Inbox()) + {m} {
          var s, a :| s in store.slots && a in store.slots[s] && x == store.slots[s][a];
          assert store.At(s.kind, s.view) == store.slots[s];
        }
        assert store.At(KindOf(m), m.view)[m.from] == m;
      }
    }

    /** Valid messages of a slot, all from the inbox; the store may forget the others. */
    method Fetch(kind: Kind, at: View, isValid: Message -> bool) returns (msgs: seq<Message>)
      requires Valid()
      modifies store
      ensures Valid() && State() == old(State()) && Inbox() <= old(Inbox())
      ensures IbftStore.DistinctSenders(msgs)
      ensures forall m | m in msgs :: isValid(m) && KindOf(m) == kind && m.view == at && Received(b, m, old(Inbox()))
      ensures |msgs| == |old(store.Passing(kind, at, isValid))|
    {
      ghost var was := store.At(kind, at);
      ghost var pass := store.Passing(kind, at, isValid);
      msgs := store.GetValidMessages(kind, at, isValid);
      forall x | x in Inbox() ensures x in old(Inbox()) {
        var s, a :| s in store.slots && a in store.slots[s] && x == store.slots[s][a];
        assert store.At(s.kind, s.view) == store.slots[s];
      }
      DistinctSize(msgs);
      assert Elements(msgs) == pass;
      assert forall m | m in msgs :: m in old(Inbox());
    }

    method MoveToNewRound(round: nat)
      modifies this
      ensures State() == MoveTo(old(State()), round) && outbox == old(outbox)
    {
      view := View(view.height, round);
      roundStarted, running := false, false;
      proposalMessage := None;
      name := NewRound;
    }

    /** The worker of a round starts, at a node that is not its proposer. */
    method StartAsValidator()
      requires Valid() && Enabled(true, b, id, State(), StartRound, Inbox())
      modifies this
      ensures Valid() && State() == Next(old(State()), StartRound) && outbox == old(outbox)
    {
      if !roundStarted {
        name, roundStarted := NewRound, true;
      }
      running := true;
    }

    /**
     A proposal for the current round; after round 0 it repeats one that a
     ROUND-CHANGE reports as prepared. The certificate is the one that the search
     found, of whatever round; see OtherRoundIsRefused.
     */
    method BuildProposal(block: Raw, rcc: seq<Message>) returns (m: Option<Message>)
      requires view.round > 0 ==> forall x | x in rcc :: x in Inbox() && x.RoundChange? && x.view.round == rcc[0].view.round > 0
      ensures m.Some? ==> OwnProposal(b, id, view, m.value, Inbox())
      ensures m.Some? && (view.round == 0 || forall x | x in rcc :: !CarriesPrepared(x)) ==> m.value.proposal.raw == block
      ensures (forall raw: Raw :: b.hashOf(raw, view.round).Some?) ==> m.Some?
      ensures m.Some? && view.round > 0 ==> m.value.rcc == Some(rcc)
      ensures m.Some? && view.round > 0 ==>
                forall i | 0 <= i < |rcc| && rcc[i].latestPC.Some? && rcc[i].lastPrepared.Some?
                           && (forall j | 0 <= j < i :: !CarriesPrepared(rcc[j])) ::
                  m.value.proposal.raw == rcc[i].lastPrepared.value.raw
    {
      var raw := block;
      if view.round > 0 {
        var previous := PreviousProposal(rcc, if rcc == [] then view.round else rcc[0].view.round);
        if previous.Some? {
          raw := previous.value;
        }
        FirstIsUnique(rcc);
        assert forall i | 0 <= i < |rcc| && rcc[i].latestPC.Some? && rcc[i].lastPrepared.Some?
                          && (forall j | 0 <= j < i :: !CarriesPrepared(rcc[j])) :: rcc[i] in rcc && FirstPrepared(rcc, i);
      }
      var hash := b.hashOf(raw, view.round);
      if hash == None {
        return None;
      }
      return Some(PrePrepare(view, id, Some(id), Proposal(raw, view.round), hash.value, if view.round == 0 then None else Some(rcc)));
    }

    /** The proposer of a round starts with a proposal of its own. */
    method StartAsProposer(block: Raw, rcc: seq<Message>) returns (done: bool, ghost m: Message)
      requires Valid() && !running && IsProposer(b, id, view.round)
      requires view.round > 0 ==> forall x | x in rcc :: x in Inbox() && x.RoundChange? && x.view.round == rcc[0].view.round > 0
      modifies this
      ensures Valid()
      ensures done ==>
                && Enabled(true, b, id, old(State()), Propose(m), Inbox()) && State() == Next(old(State()), Propose(m))
                && outbox == old(outbox) + [m]
      ensures !done ==> outbox == old(outbox) && State() == old(State()).(roundStarted := true)
    {
      hide OwnProposal, IsProposer, NodeInv;
      StartKeepsInv(b, id, view.height, State());
      var built := BuildProposal(block, rcc);
      if !roundStarted {
        name, roundStarted := NewRound, true;
      }
      if built == None {
        return false, Prepare(view, id, None, []);
      }
      m := built.value;
      NextKeepsInv(b, id, view.height, old(State()), Propose(m), Inbox());
      proposalMessage := built;
      name := Preparing;
      running := true;
      outbox := outbox + [built.value];
      assert State() == Next(old(State()), Propose(m));
      done := true;
    }

    method HandlePrePrepare(at: View) returns (proposal: Option<Message>)
      requires Valid()
      modifies store
      ensures Valid() && State() == old(State()) && Inbox() <= old(Inbox())
      ensures proposal.Some? ==>
                && Received(b, proposal.value, old(Inbox())) && proposal.value.view == at
                && Acceptable(b, id, proposal.value, at)
      ensures proposal.Some? <==> |old(store.Passing(PREPREPARE, at, IsAcceptable(b, id, at)))| >= 1
    {
      var msgs := Fetch(PREPREPARE, at, IsAcceptable(b, id, at));
      if |msgs| < 1 {
        return None;
      }
      assert msgs[0] in msgs;
      return Some(msgs[0]);
    }

    /** New-round state: takes a proposal if there is an acceptable one. */
    method RunNewRound() returns (done: bool, ghost m: Message)
      requires Valid() && running && name == NewRound
      modifies this, store
      ensures Valid()
      ensures done <==> |old(store.Passing(PREPREPARE, view, IsAcceptable(b, id, view)))| >= 1
      ensures !done ==> State() == old(State()) && outbox == old(outbox)
      ensures done ==>
                && Enabled(true, b, id, old(State()), Accept(m), old(Inbox())) && State() == Next(old(State()), Accept(m))
                && outbox == old(outbox) + [PrepareMessage(id, old(view), m.hash)]
    {
      var proposal := HandlePrePrepare(view);
      if proposal == None {
        return false, Prepare(view, id, None, []);
      }
      m := proposal.value;
      AcceptStep(b, id, State(), m, old(Inbox()));
      outbox := outbox + [PrepareMessage(id, view, proposal.value.hash)];
      proposalMessage := proposal;
      name := Preparing;
      assert State() == Next(old(State()), Accept(m));
      done := true;
    }

    method CollectPrepares() returns (enough: bool, ps: seq<Message>)
      requires Valid() && running && name == Preparing
      modifies store
      ensures Valid() && State() == old(State())
      ensures enough <==> |old(store.Passing(PREPARE, view, MatchesPrepare(b, proposalMessage.value.proposal)))| >= b.quorum - 1
      ensures enough ==> PrepareQuorum(b, State(), ps, old(Inbox()))
    {
      ps := Fetch(PREPARE, view, MatchesPrepare(b, proposalMessage.value.proposal));
      NoProposalFirst(b, ps);
      enough := HasQuorum(b, ps, PREPARE);
    }

    /** Prepare state: succeeds exactly when the store holds a quorum of matching PREPAREs. */
    method HandlePrepare() returns (done: bool, ghost ps: seq<Message>)
      requires Valid() && running && name == Preparing
      modifies this, store
      ensures Valid()
      ensures done <==> |old(store.Passing(PREPARE, view, MatchesPrepare(b, proposalMessage.value.proposal)))| >= b.quorum - 1
      ensures !done ==> State() == old(State()) && outbox == old(outbox)
      ensures done ==>
                && Enabled(true, b, id, old(State()), Prepared(ps), old(Inbox())) && State() == Next(old(State()), Prepared(ps))
                && outbox == old(outbox) + [CommitMessage(id, old(view), old(proposalMessage).value.hash)]
    {
      hide PrepareQuorum, IsProposer, IsValidProposalHash;
      var proposal := proposalMessage.value.proposal;
      var enough, prepares := CollectPrepares();
      ps := prepares;
      if !enough {
        return false, ps;
      }
      PrepareStep(b, id, State(), ps, old(Inbox()));
      outbox := outbox + [CommitMessage(id, view, proposalMessage.value.hash)];
      latestPC := Some(Certificate(proposalMessage, Some(prepares)));
      latestPrepared := Some(proposal);
      name := Committing;
      assert State() == Next(old(State()), Prepared(ps));
      done := true;
    }

    /** Commit state: succeeds exactly when the store holds a quorum of matching, sealed COMMITs. */
    method HandleCommit() returns (done: bool, ghost cs: seq<Message>)
      requires Valid() && running && name == Committing
      modifies this, store
      ensures Valid()
      ensures done <==> |old(store.Passing(COMMIT, view, MatchesCommit(b, proposalMessage.value.proposal)))| >= b.quorum
      ensures !done ==> State() == old(State())
      ensures done ==>
                Enabled(true, b, id, old(State()), Committed(cs), old(Inbox())) && State() == Next(old(State()), Committed(cs))
      ensures outbox == old(outbox)
    {
      var commits := Fetch(COMMIT, view, MatchesCommit(b, proposalMessage.value.proposal));
      cs := commits;
      if !HasQuorum(b, commits, COMMIT) {
        return false, cs;
      }
      assert CommitQuorum(b, State(), cs, old(Inbox()));
      CommitStep(b, id, State(), cs, old(Inbox()));
      seals := SealsOf(commits);
      name := Fin;
      assert State() == Next(old(State()), Committed(cs));
      done := true;
    }

    /** Timer expiry: the next round, announced with the latest certificate. */
    method ExpireRound()
      requires Valid()
      modifies this
      ensures Valid() && State() == Next(old(State()), Expire)
      ensures outbox == old(outbox) + [RoundChange(view, id, Some(id), latestPrepared, latestPC)]
    {
      MoveToNewRound(view.round + 1);
      outbox := outbox + [RoundChange(view, id, Some(id), latestPrepared, latestPC)];
    }

    /** A proposal of a higher round is followed at once; the PREPARE still names the round left behind. */
    method FollowProposal(m: Message)
      requires Valid() && Enabled(true, b, id, State(), JumpProposal(m), Inbox())
      modifies this
      ensures Valid() && State() == Next(old(State()), JumpProposal(m))
      ensures outbox == old(outbox) + [PrepareMessage(id, old(view), m.hash)]
    {
      hide NodeInv, IsProposer, IsValidProposalHash;
      NextKeepsInv(b, id, view.height, State(), JumpProposal(m), Inbox());
      var left := view;
      MoveToNewRound(m.view.round);
      proposalMessage := Some(m);
      name := Preparing;
      roundStarted := true;
      assert State() == Next(old(State()), JumpProposal(m));
      outbox := outbox + [PrepareMessage(id, left, m.hash)];
    }

    /** Moves to the higher round of a certificate that the search has found. */
    method FollowCertificate(rcc: seq<Message>)
      requires Valid() && ExtendedRCC(b, State(), rcc, Inbox()) && rcc[0].view.round > view.round
      modifies this
      ensures Valid() && State() == Next(old(State()), JumpRCC(rcc)) && outbox == old(outbox)
      ensures view == rcc[0].view && proposalMessage == None && latestPC == old(latestPC)
    {
      hide IsProposer, IsValidProposalHash, ExtendedRCC;
      CertificateHeight(b, State(), rcc, Inbox());
      NextKeepsInv(b, id, view.height, State(), JumpRCC(rcc), Inbox());
      MoveToNewRound(rcc[0].view.round);
    }

    /**
     The certificate search. It completes if and only if no message of a round
     it examines is headless. Whether the round it finds lies above the node's
     own depends only on whether any round above has a certificate.
     */
    method HandleRoundChange() returns (rcc: Option<seq<Message>>, panicked: bool, ghost examined: set<nat>)
      requires Valid() && b.quorum > 0
      ensures panicked <==> exists r, m :: r in examined && m in Stored(r) && Headless(b, m, view.height)
      ensures forall r | r in examined :: r > 0
      ensures !panicked && rcc == None ==> forall r: nat | r > 0 && r !in examined :: Stored(r) == {}
      ensures !panicked && rcc.Some? ==>
                && rcc.value != [] && IbftStore.DistinctSenders(rcc.value) && |rcc.value| >= b.quorum
                && (forall m | m in rcc.value ::
                      Received(b, m, Inbox()) && m.view == rcc.value[0].view && ValidRoundChange(b, m, view.height))
                && rcc.value[0].view.height == view.height && rcc.value[0].view.round > 0
                && !(rcc.value[0].view.round == view.round && proposalMessage.Some?)
                && forall r: nat | r > rcc.value[0].view.round && r !in examined :: Stored(r) == {}
      ensures !panicked ==>
                ((rcc.Some? && rcc.value[0].view.round > view.round) <==>
                 exists r :: r > view.round && |store.RoundChanges(view.height, r, ChecksOut(b, view.height))| >= b.quorum)
    {
      var accepted, quorum, own := proposalMessage.Some?, b.quorum, view.round;
      var enough := (r: nat, n: nat) => !(r == own && accepted) && n >= quorum;
      var check := Checks(b, view.height);
      var found, round, bad;
      found, round, bad, examined := store.GetExtendedRCC(view.height, check, enough);
      rcc, panicked := found, bad;
      forall r: nat ensures store.Poisoned(view.height, r, check) <==> exists m :: m in Stored(r) && Headless(b, m, view.height) {
        PoisonMeans(r);
      }
      if !panicked && rcc.Some? {
        ghost var pass := store.RoundChanges(view.height, round, ChecksOut(b, view.height));
        DistinctSize(rcc.value);
        assert Elements(rcc.value) == pass;
        forall m | m in rcc.value ensures m in Inbox() && m.view == View(view.height, round) {
          assert m in pass;
        }
        assert rcc.value[0] in rcc.value;
      }
      forall r: nat ensures store.CanCertify(view.height, r, check, enough)
                            <==> enough(r, |store.RoundChanges(view.height, r, ChecksOut(b, view.height))|) {
      }
    }

    /** The ROUND-CHANGE messages stored for a round of this height. */
    ghost function Stored(round: nat): set<Message>
      reads this, store
    {
      store.At(ROUND_CHANGE, View(view.height, round)).Values
    }

    lemma PoisonMeans(r: nat)
      ensures store.Poisoned(view.height, r, Checks(b, view.height)) <==> exists m :: m in Stored(r) && Headless(b, m, view.height)
    {
      hide RoundChangeCheck, Headless;
      var at := store.At(ROUND_CHANGE, View(view.height, r));
      if a :| a in at && Checks(b, view.height)(at[a]) == Panics {
        PanicsIff(b, at[a], view.height);
        assert at[a] in at.Values;
      }
      if m :| m in at.Values && Headless(b, m, view.height) {
        var a :| a in at && at[a] == m;
        PanicsIff(b, m, view.height);
      }
    }
  }

  function Checks(b: Backend, height: nat): Message -> Check {
    (m: Message) => RoundChangeCheck(b, m, height)
  }

  function IsAcceptable(b: Backend, id: Address, at: View): Message -> bool {
    (m: Message) => Acceptable(b, id, m, at)
  }

  function MatchesPrepare(b: Backend, p: Proposal): Message -> bool {
    (m: Message) => m.Prepare? && IsValidProposalHash(b, p, m.hash)
  }

  function MatchesCommit(b: Backend, p: Proposal): Message -> bool {
    (m: Message) => m.Commit? && IsValidProposalHash(b, p, m.hash) && IsValidCommittedSeal(b, m.hash, m.from, m.seal)
  }

  function ChecksOut(b: Backend, height: nat): Message -> bool {
    IbftStore.PassesIn(Checks(b, height))
  }
}
