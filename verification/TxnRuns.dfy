/**
 What an interpreter does to the overlay object: operations, and calls that take
 a snapshot first and revert to it if they fail. The object shows the same as
 the overlay would, at every depth.
 */
module TxnRuns {
  import opened Common
  import opened State
  import opened StateRuns
  import StorageGas
  import opened Txn

  datatype Action = Do(op: Op) | Call(actions: seq<Action>, fails: bool)

  function After(w: World, o: Overlay, actions: seq<Action>): Overlay
    decreases actions
  {
    if actions == [] then o
    else
      var n := |actions| - 1;
      AfterOne(w, After(w, o, actions[..n]), actions[n])
  }

  /** A call that fails leaves nothing behind. */
  function AfterOne(w: World, o: Overlay, action: Action): Overlay
    decreases action
  {
    match action
    case Do(op) => Step(w, o, op)
    case Call(actions, fails) => if fails then o else After(w, o, actions)
  }

  /** The operation changes one account. */
  predicate OnAccount(op: Op) {
    !op.OpAddRefund? && !op.OpSubRefund? && !op.OpEmitLog? && !op.OpTakeLogs? && !op.OpClean? && !op.OpSetStorage?
  }

  method DoAccountOp(t: Txn, op: Op)
    requires t.Valid() && OnAccount(op)
    modifies t`objects, t`frozen, t`view
    ensures t.Valid() && t.view == Step(t.snapshot, old(t.view), op)
  {
    hide t.Valid, AddBalance, SubBalance, SetBalance, AddSealingReward, IncrNonce, SetNonce, SetCode, SetState, TouchAccount;
    hide Suicide, CreateAccount;
    match op {
      case OpAddBalance(a, n) => t.DoAddBalance(a, n);
      case OpSubBalance(a, n) => var ok := t.DoSubBalance(a, n);
      case OpSetBalance(a, n) => t.DoSetBalance(a, n);
      case OpReward(a, n) => t.DoAddSealingReward(a, n);
      case OpIncrNonce(a) => t.DoIncrNonce(a);
      case OpSetNonce(a, n) => t.DoSetNonce(a, n);
      case OpSetCode(a, c) => t.DoSetCode(a, c);
      case OpSetState(a, k, v) => t.DoSetState(a, k, v);
      case OpTouch(a) => t.DoTouchAccount(a);
      case OpSuicide(a) => var suicided := t.DoSuicide(a);
      case OpCreate(a) => t.DoCreateAccount(a);
    }
  }

  method DoOp(t: Txn, op: Op)
    requires t.Valid()
    modifies t`objects, t`frozen, t`view, t`refund, t`logs, t`arrays
    ensures t.Valid() && t.view == Step(t.snapshot, old(t.view), op)
  {
    hide t.Valid, StorageGas.SetStorage, EmitLog, TakeLogs, CleanDelete, RefundSum;
    if OnAccount(op) {
      hide Step;
      DoAccountOp(t, op);
      return;
    }
    match op {
      case OpSetStorage(a, k, v, m) => var status := t.DoSetStorage(a, k, v, m);
      case OpAddRefund(g) => t.DoRefund(g);
      case OpSubRefund(g) => t.DoRefund(0 - g);
      case OpEmitLog(l) => t.DoEmitLog(l);
      case OpTakeLogs => var taken := t.DoTakeLogs();
      case OpClean(b) => t.DoCleanDelete(b);
    }
  }

  /** What is left of the stack after a revert, if the snapshot was taken on top of `base`. */
  lemma BackTo(base: seq<nat>, id: nat, was: seq<nat>, live: seq<nat>)
    requires base + [id] <= was && live <= was && live != [] && live[|live| - 1] == id
    requires forall p, q | 0 <= p < q < |was| :: was[p] < was[q]
    ensures live == base + [id]
  {
    assert was[|base|] == (base + [id])[|base|] == id && was[|live| - 1] == id;
  }

  /** Runs the actions; the snapshots that were on the stack stay there. */
  method DoAll(t: Txn, actions: seq<Action>)
    requires t.Valid()
    modifies t
    ensures t.Valid() && t.view == After(t.snapshot, old(t.view), actions)
    ensures old(t.live) <= t.live && old(t.history) <= t.history
    decreases actions
  {
    hide t.Valid, Step;
    for i := 0 to |actions|
      invariant t.Valid() && t.view == After(t.snapshot, old(t.view), actions[..i])
      invariant old(t.live) <= t.live && old(t.history) <= t.history
    {
      assert actions[..i + 1][..i] == actions[..i];
      DoOne(t, actions[i]);
    }
    assert actions[..|actions|] == actions;
  }

  method DoOne(t: Txn, action: Action)
    requires t.Valid()
    modifies t
    ensures t.Valid() && t.view == AfterOne(t.snapshot, old(t.view), action)
    ensures old(t.live) <= t.live && old(t.history) <= t.history
    decreases action
  {
    hide t.Valid, Step;
    match action {
      case Do(op) => DoOp(t, op);
      case Call(actions, fails) =>
        var id := t.Snapshot();
        DoAll(t, actions);
        if fails {
          Undo(t, old(t.live), id);
        }
    }
  }

  /** Reverts to a snapshot taken on top of `base`. */
  method Undo(t: Txn, ghost base: seq<nat>, id: nat)
    requires t.Valid() && base + [id] <= t.live && id < |t.history|
    modifies t
    ensures t.Valid() && t.history == old(t.history) && t.view == t.history[id] && base <= t.live
  {
    hide t.Valid;
    ghost var was := t.live;
    t.StackIncreases();
    assert was[|base|] == (base + [id])[|base|] == id;
    t.RevertToSnapshot(id);
    BackTo(base, id, was, t.live);
  }
}
