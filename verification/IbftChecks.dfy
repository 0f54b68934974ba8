/**
 What a validator checks before it believes a proposal or a certificate, and
 what passing those checks guarantees.
 */
module IbftChecks {
  import opened Common
  import opened IbftMessages
  import ValidatorSet

  /**
   The node's view of one height: the active validators, the quorum size in
   force, the last proposer, the proposal hash (which takes the round into
   account and fails on undecodable bytes) and block validity.
   */
  datatype Backend = Backend(
    validators: seq<Address>,
    quorum: nat,
    lastProposer: Address,
    hashOf: (Raw, nat) -> Option<Hash>,
    isValidProposal: Raw -> bool)

  predicate IsProposer(b: Backend, id: Address, round: nat) {
    b.validators != [] && id == ValidatorSet.CalcProposer(b.validators, round, b.lastProposer)
  }

  predicate IsValidValidator(b: Backend, m: Message) {
    m.signer == Some(m.from) && m.from in b.validators
  }

  predicate IsValidProposalHash(b: Backend, p: Proposal, hash: Hash) {
    b.hashOf(p.raw, p.round) == Some(hash)
  }

  predicate IsValidCommittedSeal(b: Backend, hash: Hash, from: Address, seal: Seal) {
    seal == Seal(from, hash) && from in b.validators
  }

  predicate HasQuorum(b: Backend, msgs: seq<Message>, kind: Kind) {
    match kind
    case PREPREPARE => |msgs| > 0
    case PREPARE =>
      // a certificate lists the proposal first; otherwise the proposer's share is implied
      if |msgs| > 0 && msgs[0].PrePrepare? then |msgs| >= b.quorum
      else |msgs| >= b.quorum - 1
    case COMMIT => |msgs| >= b.quorum
    case ROUND_CHANGE => |msgs| >= b.quorum
  }

  // ---------- prepared certificates ----------

  predicate ValidPC(b: Backend, certificate: Option<Certificate>, rLimit: nat, height: nat) {
    certificate.Some? ==>
      var c := certificate.value;
      && c.proposal.Some? && c.prepares.Some?
      && var p, prepares := c.proposal.value, c.prepares.value;
      var all := [p] + prepares;
      && HasQuorum(b, all, PREPARE)
      && p.PrePrepare?
      && (forall m | m in prepares :: m.Prepare?)
      && UniqueSenders(all)
      && SameProposalHash(all)
      && AllHaveLowerRound(all, rLimit)
      && AllHaveSameHeight(all, height)
      && AllHaveSameRound(all)
      && IsProposer(b, p.from, p.view.round)
      && IsValidValidator(b, p)
      && (forall m | m in prepares :: IsValidValidator(b, m) && !IsProposer(b, m.from, m.view.round))
  }

  method CheckPC(b: Backend, certificate: Option<Certificate>, rLimit: nat, height: nat) returns (ok: bool)
    ensures ok <==> ValidPC(b, certificate, rLimit, height)
  {
    if certificate == None {
      return true;
    }
    var c := certificate.value;
    if c.proposal == None || c.prepares == None {
      return false;
    }
    var p, prepares := c.proposal.value, c.prepares.value;
    var all := [p] + prepares;
    if !HasQuorum(b, all, PREPARE) || !p.PrePrepare? {
      return false;
    }
    for i := 0 to |prepares|
      invariant forall m | m in prepares[..i] :: m.Prepare?
    {
      if !prepares[i].Prepare? {
        assert prepares[i] in prepares;
        return false;
      }
      assert prepares[..i + 1] == prepares[..i] + [prepares[i]];
    }
    var unique := HasUniqueSenders(all);
    if !unique {
      return false;
    }
    var sameHash := HaveSameProposalHash(all);
    if !sameHash || !AllHaveLowerRound(all, rLimit) || !AllHaveSameHeight(all, height) || !AllHaveSameRound(all) {
      return false;
    }
    if !IsProposer(b, p.from, p.view.round) || !IsValidValidator(b, p) {
      return false;
    }
    for i := 0 to |prepares|
      invariant forall m | m in prepares[..i] :: IsValidValidator(b, m) && !IsProposer(b, m.from, m.view.round)
    {
      if !IsValidValidator(b, prepares[i]) || IsProposer(b, prepares[i].from, prepares[i].view.round) {
        assert prepares[i] in prepares;
        return false;
      }
      assert prepares[..i + 1] == prepares[..i] + [prepares[i]];
    }
    assert prepares[..|prepares|] == prepares;
    return true;
  }

  /** A certificate as handlePrepare assembles it from an accepted proposal and a PREPARE quorum. */
  ghost predicate BuiltPC(b: Backend, c: Certificate, view: View) {
    && c.proposal.Some? && c.prepares.Some?
    && var p, prepares := c.proposal.value, c.prepares.value;
    && p.PrePrepare? && p.view == view
    && IsProposer(b, p.from, view.round) && IsValidValidator(b, p)
    && IsValidProposalHash(b, p.proposal, p.hash)
    && HasQuorum(b, prepares, PREPARE)
    && (forall i, j | 0 <= i < j < |prepares| :: prepares[i].from != prepares[j].from)
    && (forall m | m in prepares ::
          m.Prepare? && m.view == view && IsValidValidator(b, m) && IsValidProposalHash(b, p.proposal, m.hash))
  }

  ghost predicate NoProposerPrepare(b: Backend, c: Certificate)
    requires c.prepares.Some?
  {
    forall m | m in c.prepares.value :: !IsProposer(b, m.from, m.view.round)
  }

  /**
   Producer and checker of certificates agree, for every round limit above the
   certificate's round, exactly when no PREPARE in it comes from the proposer.
   */
  lemma BuiltPCPassesIff(b: Backend, c: Certificate, view: View, rLimit: nat)
    requires BuiltPC(b, c, view)
    ensures ValidPC(b, Some(c), rLimit, view.height) <==> view.round < rLimit && NoProposerPrepare(b, c)
  {
    var p, prepares := c.proposal.value, c.prepares.value;
    var all := [p] + prepares;
    assert forall m :: m in all <==> m == p || m in prepares;
    assert p in all;
    if view.round < rLimit && NoProposerPrepare(b, c) {
      forall i, j | 0 <= i < j < |all| ensures all[i].from != all[j].from {
        assert all[j] == prepares[j - 1] && all[j] in prepares;
        if i > 0 {
          assert all[i] == prepares[i - 1];
        }
      }
      assert all[0] == p;
      assert ValidPC(b, Some(c), rLimit, view.height);
    }
  }

  /** Sending a list over the wire turns an empty one into an absent one. */
  function OverTheWire(c: Certificate): Certificate {
    if c.prepares == Some([]) then c.(prepares := None) else c
  }

  /** So a remote checker also needs at least one PREPARE, which a quorum of two or more supplies. */
  lemma ReceivedPCPassesIff(b: Backend, c: Certificate, view: View, rLimit: nat)
    requires BuiltPC(b, c, view)
    ensures ValidPC(b, Some(OverTheWire(c)), rLimit, view.height)
            <==> view.round < rLimit && NoProposerPrepare(b, c) && c.prepares != Some([])
    ensures b.quorum >= 2 ==> c.prepares != Some([])
  {
    BuiltPCPassesIff(b, c, view, rLimit);
  }

  /** The proposal and every PREPARE of a certificate have the hash of the proposal sent along. */
  predicate HashesMatch(b: Backend, p: Proposal, c: Certificate) {
    && c.proposal.Some? && c.prepares.Some?
    && c.proposal.value.PrePrepare? && IsValidProposalHash(b, p, c.proposal.value.hash)
    && forall m | m in c.prepares.value :: m.Prepare? && IsValidProposalHash(b, p, m.hash)
  }

  /** Whether a proposal and a certificate belong together; hashing a proposal that is not there panics. */
  function ProposalCheck(b: Backend, proposal: Option<Proposal>, certificate: Option<Certificate>): Check {
    match (proposal, certificate)
    case (None, None) => Passes
    case (Some(_), None) => Fails
    case (None, Some(_)) => Panics
    case (Some(p), Some(c)) => if HashesMatch(b, p, c) then Passes else Fails
  }

  /** The check of a certificate that has its parts, as a valid one has. */
  method CheckMatches(b: Backend, proposal: Option<Proposal>, certificate: Option<Certificate>) returns (r: Check)
    requires certificate.Some? ==>
               && certificate.value.proposal.Some? && certificate.value.proposal.value.PrePrepare?
               && certificate.value.prepares.Some? && forall m | m in certificate.value.prepares.value :: m.Prepare?
    ensures r == ProposalCheck(b, proposal, certificate)
  {
    if proposal == None && certificate == None {
      return Passes;
    }
    if certificate == None {
      return Fails;
    }
    var prepares := certificate.value.prepares.value;
    var hashes := [certificate.value.proposal.value.hash];
    for i := 0 to |prepares|
      invariant |hashes| == i + 1 && hashes[0] == certificate.value.proposal.value.hash
      invariant forall j | 0 <= j < i :: hashes[j + 1] == prepares[j].hash
    {
      assert prepares[i] in prepares;
      hashes := hashes + [prepares[i].hash];
    }
    for i := 0 to |hashes|
      invariant i > 0 ==> proposal.Some?
      invariant forall j | 0 <= j < i :: IsValidProposalHash(b, proposal.value, hashes[j])
    {
      if proposal == None {
        return Panics;
      }
      if !IsValidProposalHash(b, proposal.value, hashes[i]) {
        assert i > 0 ==> prepares[i - 1] in prepares;
        return Fails;
      }
    }
    forall m | m in prepares ensures IsValidProposalHash(b, proposal.value, m.hash) {
      var j :| 0 <= j < |prepares| && prepares[j] == m;
      assert hashes[j + 1] == m.hash;
    }
    return Passes;
  }

  // ---------- proposals ----------

  predicate ValidCommon(b: Backend, msg: Message, view: View) {
    && msg.PrePrepare?
    && msg.proposal.round == view.round
    && IsProposer(b, msg.from, view.round)
    && IsValidProposalHash(b, msg.proposal, msg.hash)
    && b.isValidProposal(msg.proposal.raw)
  }

  predicate ValidProposal0(b: Backend, id: Address, msg: Message, view: View) {
    msg.view.round == 0 && ValidCommon(b, msg, view) && !IsProposer(b, id, view.round)
  }

  predicate WellFormedRCC(b: Backend, rcc: seq<Message>, view: View) {
    && HasQuorum(b, rcc, ROUND_CHANGE)
    && UniqueSenders(rcc)
    && forall rc | rc in rcc :: rc.RoundChange? && rc.view == view && IsValidValidator(b, rc)
  }

  /** A round-change message that carries a certificate the checker accepts. */
  predicate Locks(b: Backend, rc: Message, rLimit: nat, height: nat) {
    rc.RoundChange? && rc.latestPC.Some? && ValidPC(b, rc.latestPC, rLimit, height)
  }

  /** Round and hash of the certificate a message carries (zero and absent if it carries none). */
  function LockRound(rc: Message): nat {
    if rc.RoundChange? && rc.latestPC.Some? && rc.latestPC.value.proposal.Some?
    then rc.latestPC.value.proposal.value.view.round else 0
  }

  function LockHash(rc: Message): Hash {
    if rc.RoundChange? && rc.latestPC.Some? && rc.latestPC.value.proposal.Some?
       && rc.latestPC.value.proposal.value.PrePrepare?
    then rc.latestPC.value.proposal.value.hash else []
  }

  /** `k` is the last of the locking messages with the greatest certificate round. */
  predicate LatestLock(b: Backend, rcc: seq<Message>, rLimit: nat, height: nat, k: nat) {
    && k < |rcc| && Locks(b, rcc[k], rLimit, height)
    && forall j | 0 <= j < |rcc| && Locks(b, rcc[j], rLimit, height) ::
         LockRound(rcc[j]) < LockRound(rcc[k]) || (LockRound(rcc[j]) == LockRound(rcc[k]) && j <= k)
  }

  /** The proposal repeats the hash of the latest lock, if there is any lock at all. */
  predicate RespectsLocks(b: Backend, rcc: seq<Message>, msg: Message, height: nat)
    requires msg.PrePrepare?
  {
    || (forall rc | rc in rcc :: !Locks(b, rc, msg.view.round, height))
    || exists k | 0 <= k < |rcc| :: LatestLock(b, rcc, msg.view.round, height, k) && LockHash(rcc[k]) == msg.hash
  }

  predicate ValidProposal(b: Backend, id: Address, msg: Message, view: View) {
    && ValidCommon(b, msg, view)
    && msg.rcc.Some?
    && !IsProposer(b, id, view.round)
    && WellFormedRCC(b, msg.rcc.value, view)
    && RespectsLocks(b, msg.rcc.value, msg, view.height)
  }

  method CheckProposal(b: Backend, id: Address, msg: Message, view: View) returns (ok: bool)
    ensures ok <==> ValidProposal(b, id, msg, view)
  {
    if !ValidCommon(b, msg, view) || msg.rcc == None {
      return false;
    }
    var rcc := msg.rcc.value;
    if !HasQuorum(b, rcc, ROUND_CHANGE) || IsProposer(b, id, view.round) {
      return false;
    }
    var unique := HasUniqueSenders(rcc);
    if !unique {
      return false;
    }
    for i := 0 to |rcc|
      invariant forall rc | rc in rcc[..i] :: rc.RoundChange? && rc.view == view && IsValidValidator(b, rc)
    {
      var rc := rcc[i];
      if !rc.RoundChange? || rc.view.height != view.height || rc.view.round != view.round || !IsValidValidator(b, rc) {
        assert rc in rcc;
        return false;
      }
      assert rcc[..i + 1] == rcc[..i] + [rc];
    }
    assert rcc[..|rcc|] == rcc;

    var found, k := LatestLockIndex(b, rcc, msg.view.round, view.height);
    if !found {
      return true;
    }
    assert rcc[k] in rcc;
    LatestLockUnique(b, rcc, msg.view.round, view.height);
    return LockHash(rcc[k]) == msg.hash;
  }

  /** Scans the certificates for the greatest round; a later message wins a tie. */
  method LatestLockIndex(b: Backend, rcc: seq<Message>, rLimit: nat, height: nat) returns (found: bool, k: nat)
    requires forall rc | rc in rcc :: rc.RoundChange?
    ensures found ==> LatestLock(b, rcc, rLimit, height, k)
    ensures !found <==> forall rc | rc in rcc :: !Locks(b, rc, rLimit, height)
  {
    found, k := false, 0;
    var maxRound := 0;
    for i := 0 to |rcc|
      invariant !found ==> maxRound == 0 && forall j | 0 <= j < i :: !Locks(b, rcc[j], rLimit, height)
      invariant found ==>
          && k < i && Locks(b, rcc[k], rLimit, height) && maxRound == LockRound(rcc[k])
          && forall j | 0 <= j < i && Locks(b, rcc[j], rLimit, height) ::
              LockRound(rcc[j]) < maxRound || (LockRound(rcc[j]) == maxRound && j <= k)
    {
      var cert := rcc[i].latestPC;
      var valid := CheckPC(b, cert, rLimit, height);
      if cert.Some? && valid {
        found := true;
        if LockRound(rcc[i]) >= maxRound {
          maxRound, k := LockRound(rcc[i]), i;
        }
      }
    }
    assert found ==> rcc[k] in rcc;
  }

  lemma LatestLockUnique(b: Backend, rcc: seq<Message>, rLimit: nat, height: nat)
    ensures forall k, l :: LatestLock(b, rcc, rLimit, height, k) && LatestLock(b, rcc, rLimit, height, l) ==> k == l
  {
  }

  // ---------- what acceptance guarantees ----------

  /** Every quorum of validators contains a member of `s`. */
  ghost predicate MeetsEveryQuorum(b: Backend, s: set<Address>) {
    forall q: set<Address> :: (forall a | a in q :: a in b.validators) && |q| >= b.quorum ==> q * s != {}
  }

  lemma QuorumMember(b: Backend, rcc: seq<Message>, view: View, s: set<Address>) returns (rc: Message)
    requires WellFormedRCC(b, rcc, view) && MeetsEveryQuorum(b, s)
    ensures rc in rcc && rc.from in s
  {
    SendersCount(rcc);
    var q := Senders(rcc);
    assert q * s != {};
    var a :| a in q * s;
    rc :| rc in rcc && rc.from == a;
  }

  /**
   Lock carry-over: when validators that meet every quorum report certificates
   for `h` from round `r` or later, and no valid certificate that late is for
   another hash, an accepted proposal has hash `h`.
   */
  lemma LockCarryOver(b: Backend, id: Address, msg: Message, view: View, s: set<Address>, r: nat, h: Hash)
    requires ValidProposal(b, id, msg, view) && msg.view == view
    requires MeetsEveryQuorum(b, s)
    requires forall rc | rc in msg.rcc.value && rc.from in s ::
               Locks(b, rc, view.round, view.height) && LockRound(rc) >= r && LockHash(rc) == h
    requires forall rc | rc in msg.rcc.value && Locks(b, rc, view.round, view.height) && LockRound(rc) >= r ::
               LockHash(rc) == h
    ensures msg.hash == h
  {
    var rcc := msg.rcc.value;
    var rc := QuorumMember(b, rcc, view, s);
    var k :| 0 <= k < |rcc| && LatestLock(b, rcc, view.round, view.height, k) && LockHash(rcc[k]) == msg.hash;
    assert rcc[k] in rcc;
  }

  /** Proposals of different rounds never share a hash, and a computed hash is not absent. */
  ghost predicate SeparatesRounds(b: Backend) {
    && (forall p: Raw, r: nat :: b.hashOf(p, r) != Some([]))
    && (forall p: Raw, r: nat, p': Raw, r': nat ::
         b.hashOf(p, r).Some? && b.hashOf(p, r) == b.hashOf(p', r') ==> r == r')
  }

  /** The certificate's proposal is hashed with the certificate's own round, as an accepted one is. */
  ghost predicate WellHashedLock(b: Backend, rc: Message)
    requires rc.RoundChange? && rc.latestPC.Some? && rc.latestPC.value.proposal.Some?
  {
    && rc.latestPC.value.proposal.value.PrePrepare?
    && exists raw: Raw :: b.hashOf(raw, LockRound(rc)) == Some(LockHash(rc))
  }

  /**
   Because the hash takes the round into account, an honest lock can never be
   matched in a later round: with well-hashed locks a proposal is accepted
   exactly when it passes the other checks and there is no lock at all.
   */
  lemma LockedRoundAcceptsIff(b: Backend, id: Address, msg: Message, view: View)
    requires SeparatesRounds(b) && msg.view == view
    requires msg.PrePrepare? && msg.rcc.Some?
    requires forall rc | rc in msg.rcc.value && Locks(b, rc, view.round, view.height) :: WellHashedLock(b, rc)
    ensures ValidProposal(b, id, msg, view) <==>
            && ValidCommon(b, msg, view) && !IsProposer(b, id, view.round)
            && WellFormedRCC(b, msg.rcc.value, view)
            && forall rc | rc in msg.rcc.value :: !Locks(b, rc, view.round, view.height)
  {
    if ValidCommon(b, msg, view) {
      forall rc | rc in msg.rcc.value && Locks(b, rc, view.round, view.height)
        ensures LockHash(rc) != msg.hash
      {
        OldLockDiffers(b, rc, msg, view);
      }
    }
  }

  lemma OldLockDiffers(b: Backend, rc: Message, msg: Message, view: View)
    requires SeparatesRounds(b) && ValidCommon(b, msg, view)
    requires Locks(b, rc, view.round, view.height) && WellHashedLock(b, rc)
    ensures LockHash(rc) != msg.hash
  {
    LockRoundBelow(b, rc, view.round, view.height);
  }

  lemma LockRoundBelow(b: Backend, rc: Message, rLimit: nat, height: nat)
    requires Locks(b, rc, rLimit, height)
    ensures LockRound(rc) < rLimit
  {
    var c := rc.latestPC.value;
    assert c.proposal.value in [c.proposal.value] + c.prepares.value;
  }
}
