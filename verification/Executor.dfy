/**
 Applying telegrams to the overlay: gas is bought, the call or creation runs,
 the rest is returned and the coinbase paid. The interpreter is a parameter.
 */
module Executor {
  import opened Common
  import opened State
  import opened Balances
  import opened Telegrams
  import opened Readings

  const SYSTEM_CALLER: Address := 0xffffFFFfFFffffffffffffffFfFFFfffFFFfFFfE
  const STATE_TRANSACTION_GAS := 1000000
  const MAX_CODE_SIZE := 24576
  const MAX_DEPTH := 1025

  /** Per telegram: its gas price and origin. */
  datatype Ctx = Ctx(gasPrice: nat, origin: Address)

  datatype Contract = Contract(depth: nat, caller: Address, address: Address, value: nat, gas: nat, code: Code, input: Code)

  /** `failed` says that the execution ended with an error. */
  datatype Result = Result(returnValue: Code, gasLeft: nat, gasUsed: nat, failed: bool)

  /**
   What a block's telegrams run against: the parent state, the interpreter, the
   address of a creation, signature recovery, hashing, forks and the coinbase.
   */
  datatype Env = Env(
    world: World,
    run: (Ctx, Contract, Overlay) -> (Overlay, Result),
    createAddress: (Address, nat) -> Address,
    sender: Telegram -> Option<Address>,
    hash: Telegram -> Hash,
    homestead: bool,
    eip158: bool,
    coinbase: Address)

  datatype Error = GasLimitReached | ApplicationError(recoverable: bool)

  datatype Receipt = Receipt(cumulativeGasUsed: nat, kind: TeleType, hash: Hash, gasUsed: nat, success: bool,
                             application: Option<Address>, logs: seq<Log>)

  datatype TState = TState(o: Overlay, ctx: Ctx, receipts: seq<Receipt>, totalGas: nat, gasPool: nat)

  // ---------- one call ----------

  function Transfer(e: Env, o: Overlay, from: Address, to: Address, amount: nat): Option<Overlay> {
    var less := SubBalance(e.world, o, from, amount);
    if less == None then None else Some(AddBalance(e.world, less.value, to, amount))
  }

  function Refused(gas: nat): Result {
    Result([], gas, 0, true)
  }

  /** A failed transfer leaves the touched account behind; a failed run reverts. */
  function ApplyCall(e: Env, ctx: Ctx, o: Overlay, c: Contract, transfers: bool): (Overlay, Result) {
    if c.depth > MAX_DEPTH then (o, Refused(c.gas))
    else
      var touched := TouchAccount(e.world, o, c.address);
      var paid := if transfers then Transfer(e, touched, c.caller, c.address, c.value) else Some(touched);
      if paid == None then (touched, Refused(c.gas))
      else
        var (after, r) := e.run(ctx, c, paid.value);
        if r.failed then (o, r) else (after, r)
  }

  predicate HasCodeOrNonce(e: Env, o: Overlay, a: Address) {
    GetNonce(e.world, o, a) != 0 || GetCode(e.world, o, a) != []
  }

  /** The new account of a creation, before the value is transferred. */
  function Prepared(e: Env, o: Overlay, a: Address): Overlay {
    if e.eip158 then IncrNonce(e.world, CreateAccount(e.world, o, a), a) else o
  }

  /** A failed transfer does not undo the creation of the account; a failed run does. */
  function ApplyCreate(e: Env, ctx: Ctx, o: Overlay, c: Contract): (Overlay, Result) {
    if c.depth > MAX_DEPTH then (o, Refused(c.gas))
    else
      var o1 := IncrNonce(e.world, o, c.caller);
      if HasCodeOrNonce(e, o1, c.address) then (o1, Refused(0))
      else
        var o2 := Prepared(e, o1, c.address);
        var paid := Transfer(e, o2, c.caller, c.address, c.value);
        if paid == None then (o2, Refused(c.gas))
        else
          var (after, r) := e.run(ctx, c, paid.value);
          if r.failed then (o1, r)
          else if e.eip158 && |r.returnValue| > MAX_CODE_SIZE then (o1, Refused(0))
          else if r.gasLeft < |r.returnValue| * 200 then
            if e.homestead then (o1, r.(failed := true, returnValue := [], gasLeft := 0))
            else (after, r.(failed := true, returnValue := []))
          else
            (SetCode(e.world, after, c.address, r.returnValue), r.(gasLeft := r.gasLeft - |r.returnValue| * 200))
  }

  // ---------- one telegram ----------

  /** Both checks leave the overlay alone when they fail. */
  function CheckAndPay(e: Env, o: Overlay, t: Telegram): Option<Overlay> {
    if t.kind == StateTx then
      if t.gasPrice != 0 || t.gas != STATE_TRANSACTION_GAS || t.from != SYSTEM_CALLER
         || t.to == None || t.to.value == NO_ADDRESS then None
      else Some(o)
    else if GetNonce(e.world, o, t.from) != t.nonce then None
    else SubBalance(e.world, o, t.from, t.gasPrice * t.gas)
  }

  function Min(a: nat, b: nat): nat {
    if a < b then a else b
  }

  /** Gas used and left after the refund, which is at most half of what was used. */
  function UpdateGasUsed(r: Result, limit: nat, refund: nat): Result {
    var used := (limit - r.gasLeft) % U64;
    var back := Min(refund, used / 2);
    r.(gasLeft := (r.gasLeft + back) % U64, gasUsed := used - back)
  }

  function Execute(e: Env, ctx: Ctx, o: Overlay, t: Telegram): (Overlay, Result) {
    if t.to == None then
      var a := e.createAddress(t.from, GetNonce(e.world, o, t.from));
      ApplyCreate(e, ctx, o, Contract(1, t.from, a, t.value, t.gas, t.input, []))
    else
      var o1 := IncrNonce(e.world, o, t.from);
      ApplyCall(e, ctx, o1, Contract(1, t.from, t.to.value, t.value, t.gas, GetCode(e.world, o1, t.to.value), t.input), true)
  }

  /** The rest of the gas goes back to the sender, the used part to the coinbase. */
  function Settle(e: Env, o: Overlay, t: Telegram, r: Result): Overlay {
    AddBalance(e.world, AddBalance(e.world, o, t.from, r.gasLeft * t.gasPrice), e.coinbase, r.gasUsed * t.gasPrice)
  }

  /** An error is recoverable, and leaves everything as it was. */
  function Apply(e: Env, s: TState, t: Telegram): (TState, Option<Result>) {
    var paid := CheckAndPay(e, s.o, t);
    if paid == None then (s, None)
    else
      var ctx := Ctx(t.gasPrice, t.from);
      var (ran, r0) := Execute(e, ctx, paid.value, t);
      var r := UpdateGasUsed(r0, t.gas, GetRefund(ran));
      (s.(o := Settle(e, ran, t, r), ctx := ctx, gasPool := (s.gasPool + r.gasLeft) % U64), Some(r))
  }

  function Recover(e: Env, t: Telegram): Option<Address> {
    if t.from == NO_ADDRESS && t.kind == LegacyTx then e.sender(t) else Some(t.from)
  }

  function ApplicationAddress(e: Env, t: Telegram): Option<Address> {
    if t.to == None then Some(e.createAddress(t.from, t.nonce)) else None
  }

  function Write(e: Env, s: TState, tele: Telegram): (TState, Option<Error>) {
    var from := Recover(e, tele);
    if from == None then (s, Some(ApplicationError(false)))
    else
      var t := tele.(from := from.value);
      var (s1, r) := Apply(e, s, t);
      if r == None then (s1, Some(ApplicationError(true)))
      else
        var total := (s1.totalGas + r.value.gasUsed) % U64;
        var (o1, logs) := TakeLogs(s1.o);
        var receipt := Receipt(total, t.kind, e.hash(t), r.value.gasUsed, !r.value.failed, ApplicationAddress(e, t), logs);
        (s1.(o := CleanDelete(o1, true), totalGas := total, receipts := s1.receipts + [receipt]), None)
  }

  /** A receipt for a telegram that is not run at all. */
  function WriteFailedReceipt(e: Env, s: TState, tele: Telegram): (TState, Option<Error>) {
    var from := Recover(e, tele);
    if from == None then (s, Some(ApplicationError(false)))
    else
      var (o1, logs) := TakeLogs(s.o);
      var t := tele.(from := from.value);
      var receipt := Receipt(0, t.kind, e.hash(t), 0, false, ApplicationAddress(e, t), logs);
      (s.(o := o1, receipts := s.receipts + [receipt]), None)
  }

  // ---------- conservation ----------

  /** The interpreter neither makes nor burns money, and hands back no more gas than it got. */
  ghost predicate Fair(e: Env) {
    forall ctx: Ctx, c: Contract, o: Overlay ::
      var (o', r) := e.run(ctx, c, o);
      Total(e.world, o') == Total(e.world, o) && r.gasLeft <= c.gas
  }

  lemma TransferTotal(e: Env, o: Overlay, from: Address, to: Address, amount: nat)
    requires Transfer(e, o, from, to, amount).Some?
    ensures Total(e.world, Transfer(e, o, from, to, amount).value) == Total(e.world, o)
  {
    hide Total, SubBalance, AddBalance;
    SubTotal(e.world, o, from, amount);
    AddTotal(e.world, SubBalance(e.world, o, from, amount).value, to, amount);
  }

  /** Creating, touching, counting nonces and setting code leave the balance. */
  lemma QuietTotals(w: World, o: Overlay, a: Address, code: Code)
    ensures Total(w, IncrNonce(w, o, a)) == Total(w, o)
    ensures Total(w, TouchAccount(w, o, a)) == Total(w, o)
    ensures Total(w, CreateAccount(w, o, a)) == Total(w, o)
    ensures Total(w, SetCode(w, o, a, code)) == Total(w, o)
  {
    hide Total;
    var obj := Fetch(w, o, a);
    SameBalanceTotal(w, o, a, obj);
    SameBalanceTotal(w, o, a, obj.(account := obj.account.(nonce := (obj.account.nonce + 1) % U64)));
    SameBalanceTotal(w, o, a, obj.(account := obj.account.(code := code)));
    SameBalanceTotal(w, o, a, NewObject().(account := NewAccount().(balance := GetBalance(w, o, a))));
  }

  lemma CallTotal(e: Env, ctx: Ctx, o: Overlay, c: Contract, transfers: bool)
    requires Fair(e)
    ensures var (o', r) := ApplyCall(e, ctx, o, c, transfers); Total(e.world, o') == Total(e.world, o) && r.gasLeft <= c.gas
  {
    hide Total, TouchAccount, Transfer;
    var touched := TouchAccount(e.world, o, c.address);
    QuietTotals(e.world, o, c.address, []);
    if transfers && Transfer(e, touched, c.caller, c.address, c.value).Some? {
      TransferTotal(e, touched, c.caller, c.address, c.value);
    }
  }

  lemma CreateTotal(e: Env, ctx: Ctx, o: Overlay, c: Contract)
    requires Fair(e)
    ensures var (o', r) := ApplyCreate(e, ctx, o, c); Total(e.world, o') == Total(e.world, o) && r.gasLeft <= c.gas
  {
    hide Total, IncrNonce, CreateAccount, SetCode, Transfer, HasCodeOrNonce;
    var o1 := IncrNonce(e.world, o, c.caller);
    QuietTotals(e.world, o, c.caller, []);
    QuietTotals(e.world, o1, c.address, []);
    QuietTotals(e.world, CreateAccount(e.world, o1, c.address), c.address, []);
    var o2 := Prepared(e, o1, c.address);
    if Transfer(e, o2, c.caller, c.address, c.value).Some? {
      TransferTotal(e, o2, c.caller, c.address, c.value);
      var (after, r) := e.run(ctx, c, Transfer(e, o2, c.caller, c.address, c.value).value);
      QuietTotals(e.world, after, c.address, r.returnValue);
    }
  }

  lemma ExecuteTotal(e: Env, ctx: Ctx, o: Overlay, t: Telegram)
    requires Fair(e)
    ensures var (o', r) := Execute(e, ctx, o, t); Total(e.world, o') == Total(e.world, o) && r.gasLeft <= t.gas
  {
    hide Total, IncrNonce, ApplyCall, ApplyCreate;
    if t.to == None {
      var a := e.createAddress(t.from, GetNonce(e.world, o, t.from));
      CreateTotal(e, ctx, o, Contract(1, t.from, a, t.value, t.gas, t.input, []));
    } else {
      var o1 := IncrNonce(e.world, o, t.from);
      QuietTotals(e.world, o, t.from, []);
      CallTotal(e, ctx, o1, Contract(1, t.from, t.to.value, t.value, t.gas, GetCode(e.world, o1, t.to.value), t.input), true);
    }
  }

  /** Whatever is refunded, the gas bought is split between what is left and what is used. */
  lemma GasSplits(r: Result, gas: nat, refund: nat)
    requires r.gasLeft <= gas < U64
    ensures var r' := UpdateGasUsed(r, gas, refund); r'.gasLeft + r'.gasUsed == gas && r'.gasLeft >= r.gasLeft
  {
    assert (gas - r.gasLeft) % U64 == gas - r.gasLeft;
  }

  lemma SettleTotal(e: Env, o: Overlay, t: Telegram, r: Result)
    ensures Total(e.world, Settle(e, o, t, r)) == Total(e.world, o) + (r.gasLeft + r.gasUsed) * t.gasPrice
  {
    hide Total, AddBalance;
    var o1 := AddBalance(e.world, o, t.from, r.gasLeft * t.gasPrice);
    AddTotal(e.world, o, t.from, r.gasLeft * t.gasPrice);
    AddTotal(e.world, o1, e.coinbase, r.gasUsed * t.gasPrice);
    Distribute(r.gasLeft, r.gasUsed, t.gasPrice);
  }

  lemma Distribute(x: nat, y: nat, z: nat)
    ensures x * z + y * z == (x + y) * z
  {
  }

  lemma PaidTotal(e: Env, o: Overlay, t: Telegram)
    requires CheckAndPay(e, o, t).Some?
    ensures Total(e.world, CheckAndPay(e, o, t).value) + t.gas * t.gasPrice == Total(e.world, o)
  {
    hide Total, SubBalance;
    if t.kind == StateTx {
      assert t.gas * t.gasPrice == 0;
    } else {
      SubTotal(e.world, o, t.from, t.gasPrice * t.gas);
    }
  }

  /**
   Conservation: on success and on error, for calls and creations, and whoever
   the sender, the recipient and the coinbase are, the total stays the same.
   */
  lemma ApplyConserves(e: Env, s: TState, t: Telegram)
    requires Fair(e) && t.gas < U64
    ensures Total(e.world, Apply(e, s, t).0.o) == Total(e.world, s.o)
  {
    hide Total, CheckAndPay, Execute, Settle, UpdateGasUsed;
    var paid := CheckAndPay(e, s.o, t);
    if paid.Some? {
      PaidTotal(e, s.o, t);
      var ctx := Ctx(t.gasPrice, t.from);
      ExecuteTotal(e, ctx, paid.value, t);
      var (ran, r0) := Execute(e, ctx, paid.value, t);
      GasSplits(r0, t.gas, GetRefund(ran));
      SettleTotal(e, ran, t, UpdateGasUsed(r0, t.gas, GetRefund(ran)));
    }
  }

  /** An account that the execution left marked holds money, or is about to get the rest of the gas or the fee. */
  predicate Loses(e: Env, ran: Overlay, t: Telegram, r: Result, a: Address) {
    Marked(ran, a)
    && (GetBalance(e.world, ran, a) > 0 || (a == t.from && r.gasLeft * t.gasPrice > 0)
        || (a == e.coinbase && r.gasUsed * t.gasPrice > 0))
  }

  lemma MarkedAfterAdd(w: World, o: Overlay, b: Address, amount: nat, a: Address)
    ensures Marked(AddBalance(w, o, b, amount), a) <==> Marked(o, a)
    ensures Marked(o, a) ==> GetBalance(w, AddBalance(w, o, b, amount), a) == GetBalance(w, o, a) + if a == b then amount else 0
    ensures Marked(o, a) ==> (Burns(o, a) <==> GetBalance(w, o, a) > 0)
  {
  }

  lemma SettleBurns(e: Env, ran: Overlay, t: Telegram, r: Result, a: Address)
    ensures Burns(Settle(e, ran, t, r), a) <==> Loses(e, ran, t, r, a)
  {
    hide AddBalance, GetBalance;
    var left, fee := r.gasLeft * t.gasPrice, r.gasUsed * t.gasPrice;
    var o1 := AddBalance(e.world, ran, t.from, left);
    MarkedAfterAdd(e.world, ran, t.from, left, a);
    MarkedAfterAdd(e.world, o1, e.coinbase, fee, a);
    MarkedAfterAdd(e.world, AddBalance(e.world, o1, e.coinbase, fee), t.from, 0, a);
  }

  /** What the interpreter leaves of a telegram that passes its checks, and the gas after refunds. */
  function Ran(e: Env, s: TState, t: Telegram): (Overlay, Result)
    requires CheckAndPay(e, s.o, t).Some?
  {
    var (ran, r) := Execute(e, Ctx(t.gasPrice, t.from), CheckAndPay(e, s.o, t).value, t);
    (ran, UpdateGasUsed(r, t.gas, GetRefund(ran)))
  }

  /**
   Writing a telegram conserves the total exactly when no account that the
   execution leaves marked for deletion holds money, is the sender with gas money
   to come back, or is the coinbase with a fee due.
   */
  lemma WriteConservesIff(e: Env, s: TState, tele: Telegram)
    requires Fair(e) && tele.gas < U64 && Write(e, s, tele).1 == None
    ensures Recover(e, tele).Some? && CheckAndPay(e, s.o, tele.(from := Recover(e, tele).value)).Some?
    ensures var t := tele.(from := Recover(e, tele).value);
            var (ran, r) := Ran(e, s, t);
            Total(e.world, Write(e, s, tele).0.o) == Total(e.world, s.o) <==> forall a :: !Loses(e, ran, t, r, a)
    ensures Total(e.world, Write(e, s, tele).0.o) <= Total(e.world, s.o)
  {
    hide Total, CleanDelete, Execute, UpdateGasUsed, CheckAndPay, Settle, Loses;
    var t := tele.(from := Recover(e, tele).value);
    ApplyConserves(e, s, t);
    var o := Apply(e, s, t).0.o;
    OthersTotal(e.world, o, TakeLogs(o).0);
    CleanTotal(e.world, TakeLogs(o).0, true);
    assert forall a :: Burns(TakeLogs(o).0, a) <==> Burns(o, a);
    var (ran, r) := Ran(e, s, t);
    assert o == Settle(e, ran, t, r);
    forall a ensures Burns(o, a) <==> Loses(e, ran, t, r, a) {
      SettleBurns(e, ran, t, r, a);
    }
  }

  // ---------- an account destroyed with its money ----------

  /** Account 2 is a contract that destroys itself in favour of the address after it, whoever calls it. */
  const SAMPLE_WORLD: World := map[1 := Account(0, 100, map[], []), 2 := Account(0, 7, map[], [])]

  function SampleRun(ctx: Ctx, c: Contract, o: Overlay): (Overlay, Result) {
    (Selfdestruct(SAMPLE_WORLD, o, c.address, c.address + 1), Result([], 0, 0, false))
  }

  function SampleEnv(): Env {
    Env(SAMPLE_WORLD, SampleRun, (a: Address, n: nat) => 0, (t: Telegram) => Some(1), (t: Telegram) => 0, true, true, 2)
  }

  /** Called while it is the coinbase too, it gets the fee after its destruction, and the fee is gone. */
  lemma FeeIsBurned()
    ensures var t := Telegram(LegacyTx, 0, 1, 10, Some(2), 0, [], 1, 0, 0, 0, 0);
            var s := TState(EMPTY, Ctx(0, 0), [], 0, 0);
            && Write(SampleEnv(), s, t).1 == None
            && Total(SAMPLE_WORLD, Write(SampleEnv(), s, t).0.o) < Total(SAMPLE_WORLD, s.o)
  {
    hide Total, Execute, UpdateGasUsed, CheckAndPay, Loses;
    var e, t, s := SampleEnv(), Telegram(LegacyTx, 0, 1, 10, Some(2), 0, [], 1, 0, 0, 0, 0), TState(EMPTY, Ctx(0, 0), [], 0, 0);
    SampleIsFair();
    SampleLoses(e, s, t);
    WriteConservesIff(e, s, t);
  }

  lemma SampleLoses(e: Env, s: TState, t: Telegram)
    requires e == SampleEnv() && s.o == EMPTY && t == Telegram(LegacyTx, 0, 1, 10, Some(2), 0, [], 1, 0, 0, 0, 0)
    ensures CheckAndPay(e, s.o, t).Some? && Loses(e, Ran(e, s, t).0, t, Ran(e, s, t).1, 2)
  {
    hide GetRefund, TouchAccount;
    var paid := CheckAndPay(e, s.o, t).value;
    assert paid == Insert(EMPTY, 1, StateObject(Account(0, 90, map[], []), false, false, map[]));
    var ctx := Ctx(1, 1);
    var (ran, r) := Execute(e, ctx, paid, t);
    SampleMarks(e, ctx, paid, t);
    assert UpdateGasUsed(r, 10, GetRefund(ran)).gasUsed > 0;
  }

  lemma SampleMarks(e: Env, ctx: Ctx, o: Overlay, t: Telegram)
    requires e == SampleEnv() && t.to == Some(2) && t.value == 0 && t.gas == 10 && 2 !in o.objects
    ensures var (ran, r) := Execute(e, ctx, o, t); Marked(ran, 2) && r.gasLeft == 0
  {
    var o1 := IncrNonce(e.world, o, t.from);
    var c := Contract(1, t.from, 2, 0, 10, GetCode(e.world, o1, 2), t.input);
    var touched := TouchAccount(e.world, o1, 2);
    var paid := AddBalance(e.world, touched, 2, 0);
    assert Lookup(e.world, paid, 2).Some?;
    SuicideMarks(SAMPLE_WORLD, AddBalance(SAMPLE_WORLD, AddRefund(paid, 24000), 3, GetBalance(SAMPLE_WORLD, paid, 2)), 2);
  }

  lemma SuicideMarks(w: World, o: Overlay, a: Address)
    requires Lookup(w, o, a).Some?
    ensures Marked(Suicide(w, o, a), a)
  {
  }

  lemma SampleIsFair()
    ensures Fair(SampleEnv())
  {
    hide Total, Selfdestruct;
    forall ctx: Ctx, c: Contract, o: Overlay
      ensures var (o', r) := SampleEnv().run(ctx, c, o); Total(SAMPLE_WORLD, o') == Total(SAMPLE_WORLD, o) && r.gasLeft <= c.gas
    {
      SelfdestructTotal(SAMPLE_WORLD, o, c.address, c.address + 1);
    }
  }

  // ---------- who pays whom ----------

  /** An interpreter that changes nothing, as for an account without code; it may fail and may use gas. */
  ghost predicate Idle(e: Env) {
    forall ctx: Ctx, c: Contract, o: Overlay :: e.run(ctx, c, o).0 == o && e.run(ctx, c, o).1.gasLeft <= c.gas
  }

  function Cost(gas: nat, price: nat): nat {
    gas * price
  }

  lemma CostSplits(left: nat, used: nat, price: nat)
    ensures Cost(left, price) + Cost(used, price) == Cost(left + used, price)
  {
    Distribute(left, used, price);
  }

  lemma SubMoves(w: World, o: Overlay, a: Address, amount: nat, b: Address)
    requires SubBalance(w, o, a, amount).Some?
    ensures GetBalance(w, SubBalance(w, o, a, amount).value, b) + If(a == b, amount) == GetBalance(w, o, b)
    ensures GetNonce(w, SubBalance(w, o, a, amount).value, b) == GetNonce(w, o, b)
  {
  }

  lemma AddMoves(w: World, o: Overlay, a: Address, amount: nat, b: Address)
    ensures GetBalance(w, AddBalance(w, o, a, amount), b) == GetBalance(w, o, b) + If(a == b, amount)
    ensures GetNonce(w, AddBalance(w, o, a, amount), b) == GetNonce(w, o, b)
  {
  }

  lemma QuietMoves(w: World, o: Overlay, a: Address, b: Address)
    ensures GetBalance(w, IncrNonce(w, o, a), b) == GetBalance(w, TouchAccount(w, o, a), b) == GetBalance(w, o, b)
    ensures GetNonce(w, IncrNonce(w, o, a), b) == if a == b then (GetNonce(w, o, b) + 1) % U64 else GetNonce(w, o, b)
    ensures GetNonce(w, TouchAccount(w, o, a), b) == GetNonce(w, o, b)
  {
  }

  /** A call with an idle interpreter moves its value exactly when it does not fail. */
  lemma CallMoves(e: Env, ctx: Ctx, o: Overlay, c: Contract, b: Address)
    requires Idle(e)
    ensures var (o', r) := ApplyCall(e, ctx, o, c, true);
            var moved := If(!r.failed, c.value);
            && GetBalance(e.world, o', b) + If(b == c.caller, moved) == GetBalance(e.world, o, b) + If(b == c.address, moved)
            && GetNonce(e.world, o', b) == GetNonce(e.world, o, b) && r.gasLeft <= c.gas
  {
    hide GetBalance, GetNonce, SubBalance, AddBalance, TouchAccount;
    QuietMoves(e.world, o, c.address, b);
    var touched := TouchAccount(e.world, o, c.address);
    var less := SubBalance(e.world, touched, c.caller, c.value);
    if less.Some? {
      SubMoves(e.world, touched, c.caller, c.value, b);
      AddMoves(e.world, less.value, c.address, c.value, b);
    }
  }

  lemma PayMoves(e: Env, o: Overlay, t: Telegram, b: Address)
    requires CheckAndPay(e, o, t).Some?
    ensures GetBalance(e.world, CheckAndPay(e, o, t).value, b) + If(b == t.from, Cost(t.gas, t.gasPrice)) == GetBalance(e.world, o, b)
    ensures GetNonce(e.world, CheckAndPay(e, o, t).value, b) == GetNonce(e.world, o, b)
  {
    hide GetBalance, GetNonce, SubBalance;
    if t.kind == StateTx {
      assert t.gas * t.gasPrice == 0;
    } else {
      assert t.gasPrice * t.gas == t.gas * t.gasPrice;
      SubMoves(e.world, o, t.from, t.gasPrice * t.gas, b);
    }
  }

  lemma SettleMoves(e: Env, o: Overlay, t: Telegram, r: Result, b: Address)
    ensures GetBalance(e.world, Settle(e, o, t, r), b)
            == GetBalance(e.world, o, b) + If(b == t.from, Cost(r.gasLeft, t.gasPrice)) + If(b == e.coinbase, Cost(r.gasUsed, t.gasPrice))
    ensures GetNonce(e.world, Settle(e, o, t, r), b) == GetNonce(e.world, o, b)
  {
    hide GetBalance, GetNonce, AddBalance;
    AddMoves(e.world, o, t.from, r.gasLeft * t.gasPrice, b);
    AddMoves(e.world, AddBalance(e.world, o, t.from, r.gasLeft * t.gasPrice), e.coinbase, r.gasUsed * t.gasPrice, b);
  }

  /**
   A plain payment: the sender loses the fee and, if the telegram succeeds, the
   value; the recipient gets the value, the coinbase the fee, and only the
   sender's nonce goes up, whoever coincides with whom.
   */
  lemma PaymentMoves(e: Env, s: TState, t: Telegram, b: Address)
    requires Idle(e) && t.gas < U64 && t.to.Some? && Apply(e, s, t).1.Some?
    ensures var (s', r) := Apply(e, s, t);
            var fee, moved := Cost(r.value.gasUsed, t.gasPrice), If(!r.value.failed, t.value);
            && GetBalance(e.world, s'.o, b) + If(b == t.from, moved + fee)
               == GetBalance(e.world, s.o, b) + If(b == t.to.value, moved) + If(b == e.coinbase, fee)
            && GetNonce(e.world, s'.o, b) == (if b == t.from then (GetNonce(e.world, s.o, b) + 1) % U64 else GetNonce(e.world, s.o, b))
            && r.value.gasUsed <= t.gas
  {
    hide GetBalance, GetNonce, CheckAndPay, Execute, Settle, UpdateGasUsed, GetRefund, Idle, Cost;
    PayMoves(e, s.o, t, b);
    var paid, ctx := CheckAndPay(e, s.o, t).value, Ctx(t.gasPrice, t.from);
    ExecuteMoves(e, ctx, paid, t, b);
    var (ran, r0) := Execute(e, ctx, paid, t);
    var r := UpdateGasUsed(r0, t.gas, GetRefund(ran));
    FailureStays(r0, t.gas, GetRefund(ran));
    GasSplits(r0, t.gas, GetRefund(ran));
    SettleMoves(e, ran, t, r, b);
    CostSplits(r.gasLeft, r.gasUsed, t.gasPrice);
  }

  lemma ExecuteMoves(e: Env, ctx: Ctx, o: Overlay, t: Telegram, b: Address)
    requires Idle(e) && t.to.Some?
    ensures var (o', r) := Execute(e, ctx, o, t);
            var moved := If(!r.failed, t.value);
            && GetBalance(e.world, o', b) + If(b == t.from, moved) == GetBalance(e.world, o, b) + If(b == t.to.value, moved)
            && GetNonce(e.world, o', b) == (if b == t.from then (GetNonce(e.world, o, b) + 1) % U64 else GetNonce(e.world, o, b))
            && r.gasLeft <= t.gas
  {
    hide GetBalance, GetNonce, ApplyCall, IncrNonce, GetCode, Idle;
    QuietMoves(e.world, o, t.from, b);
    var counted := IncrNonce(e.world, o, t.from);
    CallMoves(e, ctx, counted, Contract(1, t.from, t.to.value, t.value, t.gas, GetCode(e.world, counted, t.to.value), t.input), b);
  }

  lemma FailureStays(r: Result, gas: nat, refund: nat)
    ensures UpdateGasUsed(r, gas, refund).failed == r.failed
  {
  }
}
