/**
 The message store: per kind and view, the latest message of every sender.
 */
module IbftStore {
  import opened Common
  import opened IbftMessages

  datatype Slot = Slot(kind: Kind, view: View)

  ghost predicate DistinctSenders(msgs: seq<Message>) {
    forall i, j | 0 <= i < j < |msgs| :: msgs[i].from != msgs[j].from
  }

  class Messages {
    var slots: map<Slot, map<Address, Message>>

    /** Every stored message sits under its own kind, view and sender. */
    ghost predicate Valid()
      reads this
    {
      forall s, a | s in slots && a in slots[s] ::
        KindOf(slots[s][a]) == s.kind && slots[s][a].view == s.view && slots[s][a].from == a
    }

    function At(kind: Kind, view: View): map<Address, Message>
      reads this
    {
      if Slot(kind, view) in slots then slots[Slot(kind, view)] else map[]
    }

    ghost function Passing(kind: Kind, view: View, isValid: Message -> bool): set<Message>
      reads this
    {
      var at := At(kind, view);
      set a | a in at && isValid(at[a]) :: at[a]
    }

    constructor ()
      ensures Valid() && slots == map[]
    {
      slots := map[];
    }

    /** A sender's newer message for the same kind and view replaces the older one. */
    method AddMessage(m: Message)
      requires Valid()
      modifies this
      ensures Valid()
      ensures At(KindOf(m), m.view) == old(At(KindOf(m), m.view))[m.from := m]
      ensures forall s | s != Slot(KindOf(m), m.view) :: At(s.kind, s.view) == old(At(s.kind, s.view))
    {
      var s := Slot(KindOf(m), m.view);
      slots := slots[s := At(s.kind, s.view)[m.from := m]];
    }

    method PruneByHeight(height: nat)
      requires Valid()
      modifies this
      ensures Valid()
      ensures forall s: Slot :: At(s.kind, s.view) == if s.view.height < height then map[] else old(At(s.kind, s.view))
      ensures slots == map s | s in old(slots) && s.view.height >= height :: old(slots)[s]
    {
      slots := map s | s in slots && s.view.height >= height :: slots[s];
    }

    /** Lists the messages of one slot that pass a filter, in an arbitrary order. */
    method Collect(kind: Kind, view: View, isValid: Message -> bool) returns (msgs: seq<Message>)
      requires Valid()
      ensures forall m :: m in msgs <==> m in Passing(kind, view, isValid)
      ensures DistinctSenders(msgs)
      ensures |msgs| == |Passing(kind, view, isValid)|
    {
      var at := At(kind, view);
      msgs := [];
      var keys := at.Keys;
      while keys != {}
        invariant keys <= at.Keys
        invariant forall m | m in msgs :: m.from in at && m.from !in keys && at[m.from] == m && isValid(m)
        invariant forall a | a in at && a !in keys && isValid(at[a]) :: at[a] in msgs
        invariant DistinctSenders(msgs)
      {
        var a :| a in keys;
        assert at[a].from == a;
        keys := keys - {a};
        if isValid(at[a]) {
          assert forall m | m in msgs :: m.from != a;
          msgs := msgs + [at[a]];
        }
      }
      DistinctSize(msgs);
      assert Elements(msgs) == Passing(kind, view, isValid);
    }

    /** Returns the valid messages of a view and forgets the invalid ones. */
    method GetValidMessages(kind: Kind, view: View, isValid: Message -> bool) returns (msgs: seq<Message>)
      requires Valid()
      modifies this
      ensures Valid()
      ensures forall m :: m in msgs <==> m in old(Passing(kind, view, isValid))
      ensures forall m | m in msgs :: isValid(m) && KindOf(m) == kind && m.view == view
      ensures DistinctSenders(msgs)
      ensures At(kind, view) == map a | a in old(At(kind, view)) && isValid(old(At(kind, view))[a]) :: old(At(kind, view))[a]
      ensures forall s | s != Slot(kind, view) :: At(s.kind, s.view) == old(At(s.kind, s.view))
    {
      msgs := Collect(kind, view, isValid);
      if Slot(kind, view) in slots {
        var at := slots[Slot(kind, view)];
        slots := slots[Slot(kind, view) := map a | a in at && isValid(at[a]) :: at[a]];
      }
    }

    /** Valid ROUND-CHANGE messages stored for one round. */
    ghost function RoundChanges(height: nat, round: nat, isValid: Message -> bool): set<Message>
      reads this
    {
      Passing(ROUND_CHANGE, View(height, round), isValid)
    }

    /** A ROUND-CHANGE message stored for a round makes the check panic. */
    ghost predicate Poisoned(height: nat, round: nat, check: Message -> Check)
      reads this
    {
      var at := At(ROUND_CHANGE, View(height, round));
      exists a :: a in at && check(at[a]) == Panics
    }

    /** Checks the ROUND-CHANGE messages of one round; a panic ends it. */
    method CollectChecked(height: nat, round: nat, check: Message -> Check) returns (msgs: seq<Message>, panicked: bool)
      requires Valid()
      ensures panicked <==> Poisoned(height, round, check)
      ensures !panicked ==> AreValid(height, round, check, msgs) && |msgs| == |RoundChanges(height, round, PassesIn(check))|
    {
      var at := At(ROUND_CHANGE, View(height, round));
      var keys := at.Keys;
      while keys != {}
        invariant keys <= at.Keys && forall a | a in at && a !in keys :: check(at[a]) != Panics
      {
        var a :| a in keys;
        if check(at[a]) == Panics {
          return [], true;
        }
        keys := keys - {a};
      }
      msgs := Collect(ROUND_CHANGE, View(height, round), PassesIn(check));
      panicked := false;
    }

    /**
     Certificate for the greatest non-zero round whose valid messages are
     enough; nothing ties that round to the caller's own. Rounds come in any
     order, and only those above the best so far are examined. A panic in one
     of them ends the search.
     */
    method GetExtendedRCC(height: nat, check: Message -> Check, enough: (nat, nat) -> bool)
      returns (rcc: Option<seq<Message>>, round: nat, panicked: bool, ghost examined: set<nat>)
      requires Valid()
      requires forall r :: !enough(r, 0)
      ensures panicked <==> exists r :: r in examined && Poisoned(height, r, check)
      ensures !panicked ==> forall r: nat | r > round && r !in examined :: At(ROUND_CHANGE, View(height, r)) == map[]
      ensures forall r | r in examined :: r > 0
      ensures !panicked ==> Best(height, check, enough, rcc, round, {})
    {
      hide Passing, Poisoned, PassesIn, CanCertify, Best, AreValid;
      rcc, round, panicked, examined := None, 0, false, {};
      var rounds := set s | s in slots && s.kind == ROUND_CHANGE && s.view.height == height :: s.view.round;
      NothingYet(height, check, enough, rounds);
      while rounds != {}
        invariant forall r: nat | r > round && r !in rounds && r !in examined :: At(ROUND_CHANGE, View(height, r)) == map[]
        invariant forall r | r in examined :: r > 0 && !Poisoned(height, r, check)
        invariant Best(height, check, enough, rcc, round, rounds)
      {
        var r :| r in rounds;
        if r > round {
          var msgs, bad := CollectChecked(height, r, check);
          examined := examined + {r};
          if bad {
            return None, 0, true, examined;
          }
          Tried(height, check, enough, rcc, round, rounds, r, msgs);
          if enough(r, |msgs|) {
            round, rcc := r, Some(msgs);
          }
        } else {
          Skipped(height, check, enough, rcc, round, rounds, r);
        }
        rounds := rounds - {r};
      }
    }

    lemma Skipped(height: nat, check: Message -> Check, enough: (nat, nat) -> bool,
                  rcc: Option<seq<Message>>, round: nat, left: set<nat>, r: nat)
      requires Best(height, check, enough, rcc, round, left) && r <= round
      ensures Best(height, check, enough, rcc, round, left - {r})
    {
      hide CanCertify, AreValid;
    }

    lemma Tried(height: nat, check: Message -> Check, enough: (nat, nat) -> bool,
                rcc: Option<seq<Message>>, round: nat, left: set<nat>, r: nat, msgs: seq<Message>)
      requires Best(height, check, enough, rcc, round, left) && r > round && forall k :: !enough(k, 0)
      requires AreValid(height, r, check, msgs) && |msgs| == |RoundChanges(height, r, PassesIn(check))|
      ensures if enough(r, |msgs|) then Best(height, check, enough, Some(msgs), r, left - {r})
              else Best(height, check, enough, rcc, round, left - {r})
    {
      hide AreValid, Passing;
      assert enough(r, |msgs|) <==> CanCertify(height, r, check, enough);
    }

    /** The valid messages of a round are enough for a certificate. */
    ghost predicate CanCertify(height: nat, round: nat, check: Message -> Check, enough: (nat, nat) -> bool)
      reads this
    {
      enough(round, |RoundChanges(height, round, PassesIn(check))|)
    }

    /** `msgs` are the valid messages of a round. */
    ghost predicate AreValid(height: nat, round: nat, check: Message -> Check, msgs: seq<Message>)
      reads this
    {
      DistinctSenders(msgs) && forall m :: m in msgs <==> m in RoundChanges(height, round, PassesIn(check))
    }

    /** The certificate is that of the greatest round above zero that can have one, rounds left over aside. */
    ghost predicate Best(height: nat, check: Message -> Check, enough: (nat, nat) -> bool,
                         rcc: Option<seq<Message>>, round: nat, left: set<nat>)
      reads this
    {
      && (forall r: nat | r > round && r !in left :: !CanCertify(height, r, check, enough))
      && (rcc == None ==> round == 0)
      && (rcc.Some? ==>
            round > 0 && CanCertify(height, round, check, enough) && AreValid(height, round, check, rcc.value) && rcc.value != [])
    }

    lemma NothingYet(height: nat, check: Message -> Check, enough: (nat, nat) -> bool, rounds: set<nat>)
      requires forall r :: !enough(r, 0)
      requires forall r: nat | r !in rounds :: At(ROUND_CHANGE, View(height, r)) == map[]
      ensures Best(height, check, enough, None, 0, rounds)
    {
      forall r: nat | r !in rounds ensures !CanCertify(height, r, check, enough) {
        assert RoundChanges(height, r, PassesIn(check)) == {};
      }
    }
  }

  function PassesIn(check: Message -> Check): Message -> bool {
    (m: Message) => check(m) == Passes
  }
}
