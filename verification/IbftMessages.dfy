/**
 Consensus messages, and the helper checks over lists of them.
 */
module IbftMessages {
  import opened Common

  /** The empty sequence stands for an absent (nil) hash. */
  type Hash = seq<int>

  type Raw = seq<int>

  datatype View = View(height: nat, round: nat)

  datatype Proposal = Proposal(raw: Raw, round: nat)

  datatype Seal = Seal(owner: Address, hash: Hash)

  /**
   A message claims a sender in `from`; `signer` is the address that signature
   recovery yields, if it yields one.
   */
  datatype Message =
    | PrePrepare(view: View, from: Address, signer: Option<Address>,
                 proposal: Proposal, hash: Hash, rcc: Option<seq<Message>>)
    | Prepare(view: View, from: Address, signer: Option<Address>, hash: Hash)
    | Commit(view: View, from: Address, signer: Option<Address>, hash: Hash, seal: Seal)
    | RoundChange(view: View, from: Address, signer: Option<Address>,
                  lastPrepared: Option<Proposal>, latestPC: Option<Certificate>)

  /** Evidence that a proposal was prepared; either part may be missing in a received one. */
  datatype Certificate = Certificate(proposal: Option<Message>, prepares: Option<seq<Message>>)

  /** How a check of a message ends. */
  datatype Check = Passes | Fails | Panics

  datatype Kind = PREPREPARE | PREPARE | COMMIT | ROUND_CHANGE

  function KindOf(m: Message): Kind {
    match m
    case PrePrepare(_, _, _, _, _, _) => PREPREPARE
    case Prepare(_, _, _, _) => PREPARE
    case Commit(_, _, _, _, _) => COMMIT
    case RoundChange(_, _, _, _, _) => ROUND_CHANGE
  }

  predicate UniqueSenders(msgs: seq<Message>) {
    && msgs != []
    && forall i, j | 0 <= i < j < |msgs| :: msgs[i].from != msgs[j].from
  }

  function Senders(msgs: seq<Message>): (s: set<Address>)
    ensures forall m :: m in msgs ==> m.from in s
  {
    set m | m in msgs :: m.from
  }

  /** Messages with distinct senders come from as many senders as there are messages. */
  lemma {:induction false} SendersCount(msgs: seq<Message>)
    requires forall i, j | 0 <= i < j < |msgs| :: msgs[i].from != msgs[j].from
    ensures |Senders(msgs)| == |msgs|
  {
    if msgs != [] {
      var n := |msgs| - 1;
      SendersCount(msgs[..n]);
      assert Senders(msgs) == Senders(msgs[..n]) + {msgs[n].from};
    }
  }

  method HasUniqueSenders(msgs: seq<Message>) returns (ok: bool)
    ensures ok <==> UniqueSenders(msgs)
  {
    if |msgs| < 1 {
      return false;
    }
    var seen: set<Address> := {};
    for i := 0 to |msgs|
      invariant forall j, k | 0 <= j < k < i :: msgs[j].from != msgs[k].from
      invariant seen == set j | 0 <= j < i :: msgs[j].from
    {
      if msgs[i].from in seen {
        return false;
      }
      seen := seen + {msgs[i].from};
    }
    return true;
  }

  predicate CarriesProposalHash(m: Message) {
    m.PrePrepare? || m.Prepare?
  }

  /**
   Equal hashes, except that absent hashes at the front are skipped: a message
   only binds the ones after it once a hash has been seen.
   */
  predicate SameProposalHash(msgs: seq<Message>) {
    && msgs != []
    && (forall i | 0 <= i < |msgs| :: CarriesProposalHash(msgs[i]))
    && (forall i, j | 0 <= i < j < |msgs| :: msgs[i].hash == [] || msgs[j].hash == msgs[i].hash)
  }

  method HaveSameProposalHash(msgs: seq<Message>) returns (ok: bool)
    ensures ok <==> SameProposalHash(msgs)
  {
    if |msgs| < 1 {
      return false;
    }
    var hash: Hash := [];
    for i := 0 to |msgs|
      invariant forall j | 0 <= j < i :: CarriesProposalHash(msgs[j])
      invariant forall j | 0 <= j < i :: msgs[j].hash == [] || msgs[j].hash == hash
      invariant hash == [] || exists k :: 0 <= k < i && msgs[k].hash == hash && forall j | k <= j < i :: msgs[j].hash == hash
      invariant forall j, k | 0 <= j < k < i :: msgs[j].hash == [] || msgs[k].hash == msgs[j].hash
    {
      if !CarriesProposalHash(msgs[i]) {
        return false;
      }
      var extracted := msgs[i].hash;
      if hash == [] {
        hash := extracted;
      }
      if hash != extracted {
        return false;
      }
    }
    return true;
  }

  predicate AllHaveLowerRound(msgs: seq<Message>, round: nat) {
    msgs != [] && forall m | m in msgs :: m.view.round < round
  }

  predicate AllHaveSameRound(msgs: seq<Message>) {
    msgs != [] && forall m | m in msgs :: m.view.round == msgs[0].view.round
  }

  predicate AllHaveSameHeight(msgs: seq<Message>, height: nat) {
    msgs != [] && forall m | m in msgs :: m.view.height == height
  }
}
