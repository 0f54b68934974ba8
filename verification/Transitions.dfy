/**
 The transition as the program runs it: on the overlay object, which is changed
 in place, with a snapshot before each call and a revert if the call fails. The
 interpreter acts on the overlay through its operations only.
 */
module Transitions {
  import opened Common
  import opened State
  import opened Txn
  import opened TxnRuns
  import opened Executor
  import opened BlockBuilding
  import opened Telegrams

  /** What the interpreter does to the overlay it finds, and its result. */
  type Script = (Ctx, Contract, Overlay) -> (seq<Action>, Result)

  /** The interpreter of `e` acts as the script says. */
  ghost predicate Scripted(e: Env, script: Script) {
    forall ctx: Ctx, c: Contract, o: Overlay ::
      e.run(ctx, c, o) == (After(e.world, o, script(ctx, c, o).0), script(ctx, c, o).1)
  }

  class Transition {
    const e: Env
    const script: Script
    const state: Txn
    var ctx: Ctx
    var receipts: seq<Receipt>
    var totalGas: nat
    var gasPool: nat

    ghost function State(): TState
      reads this, state
    {
      TState(state.view, ctx, receipts, totalGas, gasPool)
    }

    ghost predicate Valid()
      reads this, state, state.frozen.Keys, set r | r in state.frozen :: r.account
    {
      state.Valid() && state.snapshot == e.world && Scripted(e, script)
    }

    constructor (e: Env, script: Script, grow: nat -> nat, gasLimit: nat)
      requires Scripted(e, script)
      ensures Valid() && this.e == e && State() == TState(EMPTY, Ctx(0, NO_ADDRESS), [], 0, gasLimit) && fresh(state)
    {
      this.e, this.script := e, script;
      state := new Txn(e.world, grow);
      ctx, receipts, totalGas, gasPool := Ctx(0, NO_ADDRESS), [], 0, gasLimit;
    }

    /** Runs a contract on the overlay. */
    method Run(c: Contract) returns (r: Result)
      requires Valid()
      modifies state
      ensures Valid() && (state.view, r) == e.run(ctx, c, old(state.view))
      ensures old(state.live) <= state.live && old(state.history) <= state.history
    {
      hide state.Valid, After;
      var o := state.Read();
      var (actions, result) := script(ctx, c, o);
      DoAll(state, actions);
      r := result;
    }

    method DoTransfer(from: Address, to: Address, amount: nat) returns (ok: bool)
      requires Valid()
      modifies state`objects, state`frozen, state`view
      ensures Valid()
      ensures var paid := Transfer(e, old(state.view), from, to, amount);
              ok == paid.Some? && state.view == if ok then paid.value else old(state.view)
    {
      hide state.Valid, Scripted, SubBalance, AddBalance;
      ok := state.DoSubBalance(from, amount);
      if ok {
        state.DoAddBalance(to, amount);
      }
    }

    /** A call: snapshot, transfer, run, and back to the snapshot if the run fails. */
    method DoApplyCall(c: Contract, transfers: bool) returns (r: Result)
      requires Valid()
      modifies state
      ensures Valid() && (state.view, r) == ApplyCall(e, ctx, old(state.view), c, transfers)
    {
      hide state.Valid, Scripted, TouchAccount, Transfer;
      if c.depth > MAX_DEPTH {
        return Refused(c.gas);
      }
      ghost var base := state.live;
      var id := state.Snapshot();
      state.DoTouchAccount(c.address);
      if transfers {
        var ok := DoTransfer(c.caller, c.address, c.value);
        if !ok {
          return Refused(c.gas);
        }
      }
      r := Run(c);
      if r.failed {
        Undo(state, base, id);
      }
    }

    method DoHasCodeOrNonce(a: Address) returns (has: bool)
      requires Valid()
      ensures has == HasCodeOrNonce(e, state.view, a)
    {
      hide state.Valid, Scripted;
      var obj, found := state.Fetched(a);
      return found && (obj.account.nonce != 0 || obj.account.code != []);
    }

    method DoPrepare(a: Address)
      requires Valid()
      modifies state`objects, state`frozen, state`view
      ensures Valid() && state.view == Prepared(e, old(state.view), a)
    {
      hide state.Valid, Scripted, CreateAccount, IncrNonce;
      if e.eip158 {
        state.DoCreateAccount(a);
        state.DoIncrNonce(a);
      }
    }

    /** A creation; every failure after the transfer goes back to the snapshot, except one before Homestead. */
    method DoApplyCreate(c: Contract) returns (r: Result)
      requires Valid()
      modifies state
      ensures Valid() && (state.view, r) == ApplyCreate(e, ctx, old(state.view), c)
    {
      hide state.Valid, Scripted, IncrNonce, Prepared, Transfer, HasCodeOrNonce, SetCode;
      if c.depth > MAX_DEPTH {
        return Refused(c.gas);
      }
      state.DoIncrNonce(c.caller);
      var taken := DoHasCodeOrNonce(c.address);
      if taken {
        return Refused(0);
      }
      ghost var base := state.live;
      var id := state.Snapshot();
      DoPrepare(c.address);
      var ok := DoTransfer(c.caller, c.address, c.value);
      if !ok {
        return Refused(c.gas);
      }
      r := Run(c);
      if r.failed {
        Undo(state, base, id);
        return;
      }
      if e.eip158 && |r.returnValue| > MAX_CODE_SIZE {
        Undo(state, base, id);
        return Refused(0);
      }
      var cost := |r.returnValue| * 200;
      if r.gasLeft < cost {
        r := r.(failed := true, returnValue := []);
        if e.homestead {
          Undo(state, base, id);
          r := r.(gasLeft := 0);
        }
        return;
      }
      state.DoSetCode(c.address, r.returnValue);
      r := r.(gasLeft := r.gasLeft - cost);
    }

    method DoCheckAndPay(t: Telegram) returns (ok: bool)
      requires Valid()
      modifies state`objects, state`frozen, state`view
      ensures Valid()
      ensures var paid := CheckAndPay(e, old(state.view), t);
              ok == paid.Some? && state.view == if ok then paid.value else old(state.view)
    {
      hide state.Valid, Scripted, SubBalance;
      if t.kind == StateTx {
        return t.gasPrice == 0 && t.gas == STATE_TRANSACTION_GAS && t.from == SYSTEM_CALLER
               && t.to != None && t.to.value != NO_ADDRESS;
      }
      var sender, _ := state.Fetched(t.from);
      if sender.account.nonce != t.nonce {
        return false;
      }
      ok := state.DoSubBalance(t.from, t.gasPrice * t.gas);
    }

    method DoExecute(t: Telegram) returns (r: Result)
      requires Valid()
      modifies state
      ensures Valid() && (state.view, r) == Execute(e, ctx, old(state.view), t)
    {
      hide state.Valid, Scripted, ApplyCreate, ApplyCall, IncrNonce;
      if t.to == None {
        var sender, _ := state.Fetched(t.from);
        var a := e.createAddress(t.from, sender.account.nonce);
        r := DoApplyCreate(Contract(1, t.from, a, t.value, t.gas, t.input, []));
      } else {
        state.DoIncrNonce(t.from);
        var called, _ := state.Fetched(t.to.value);
        r := DoApplyCall(Contract(1, t.from, t.to.value, t.value, t.gas, called.account.code, t.input), true);
      }
    }

    method DoApply(t: Telegram) returns (r: Option<Result>)
      requires Valid()
      modifies state, this`ctx, this`gasPool
      ensures Valid() && (State(), r) == Apply(e, old(State()), t)
    {
      hide state.Valid, Scripted, CheckAndPay, Execute, AddBalance;
      var ok := DoCheckAndPay(t);
      if !ok {
        return None;
      }
      ctx := Ctx(t.gasPrice, t.from);
      var result := DoExecute(t);
      var refund := DoGetRefund();
      result := UpdateGasUsed(result, t.gas, refund);
      state.DoAddBalance(t.from, result.gasLeft * t.gasPrice);
      state.DoAddBalance(e.coinbase, result.gasUsed * t.gasPrice);
      gasPool := (gasPool + result.gasLeft) % U64;
      return Some(result);
    }

    method DoGetRefund() returns (refund: nat)
      requires Valid()
      ensures refund == GetRefund(state.view)
    {
      hide state.Valid, Scripted;
      state.OthersAre();
      return (if state.refund.Some? then state.refund.value else 0) % U64;
    }

    method DoWrite(tele: Telegram) returns (err: Option<Error>)
      requires Valid()
      modifies this, state
      ensures Valid() && (State(), err) == Write(e, old(State()), tele)
    {
      hide state.Valid, Scripted, Apply, CleanDelete;
      var from := Recover(e, tele);
      if from == None {
        return Some(ApplicationError(false));
      }
      var t := tele.(from := from.value);
      var r := DoApply(t);
      if r == None {
        return Some(ApplicationError(true));
      }
      totalGas := (totalGas + r.value.gasUsed) % U64;
      var logs := state.DoTakeLogs();
      state.DoCleanDelete(true);
      receipts := receipts + [Receipt(totalGas, t.kind, e.hash(t), r.value.gasUsed, !r.value.failed, ApplicationAddress(e, t), logs)];
      return None;
    }

    method DoWriteFailedReceipt(tele: Telegram) returns (err: Option<Error>)
      requires Valid()
      modifies this, state
      ensures Valid() && (State(), err) == WriteFailedReceipt(e, old(State()), tele)
    {
      hide state.Valid, Scripted;
      var from := Recover(e, tele);
      if from == None {
        return Some(ApplicationError(false));
      }
      var logs := state.DoTakeLogs();
      var t := tele.(from := from.value);
      receipts := receipts + [Receipt(0, t.kind, e.hash(t), 0, false, ApplicationAddress(e, t), logs)];
      return None;
    }

    /** The validator's loop; it stops at the first error. */
    method ProcessBlock(gasLimit: nat, ts: seq<Telegram>) returns (ok: bool)
      requires Valid()
      modifies this, state
      ensures Valid() && (ok <==> Process(e, gasLimit, old(State()), ts).Some?)
      ensures ok ==> Process(e, gasLimit, old(State()), ts) == Some(State())
    {
      hide Valid, Write, WriteFailedReceipt;
      for i := 0 to |ts|
        invariant Valid() && Process(e, gasLimit, old(State()), ts[..i]) == Some(State())
      {
        assert ts[..i + 1][..i] == ts[..i];
        var err;
        if Exceeds(ts[i], gasLimit) {
          err := DoWriteFailedReceipt(ts[i]);
        } else {
          err := DoWrite(ts[i]);
        }
        if err != None {
          ProcessFails(e, gasLimit, old(State()), ts, i + 1);
          return false;
        }
      }
      assert ts[..|ts|] == ts;
      return true;
    }

    /** The builder's step: what it reports decides what the pool does with the telegram. */
    method WriteTransaction(gasLimit: nat, t: Telegram) returns (status: Status)
      requires Valid()
      modifies this, state
      ensures Valid() && (State(), status) == BuildStep(e, gasLimit, old(State()), t)
    {
      hide Valid, Write, WriteFailedReceipt;
      if Exceeds(t, gasLimit) {
        var err := DoWriteFailedReceipt(t);
        return Fail;
      }
      var err := DoWrite(t);
      if err == None {
        return Success;
      } else if err.value == GasLimitReached {
        return Stop;
      } else if err.value.recoverable {
        return Skip;
      }
      return Fail;
    }
  }
}
