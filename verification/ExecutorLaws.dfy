/**
 What a telegram does, in terms of what can be read before and after it and of
 what the interpreter is given: for every interpreter, every address and every
 outcome.
 */
module ExecutorLaws {
  import opened Common
  import opened State
  import opened Readings
  import opened Executor
  import opened Telegrams

  // ---------- which telegrams are applied ----------

  /**
   A legacy telegram is applied exactly when its nonce is the sender's and the
   sender can pay for all of its gas; a state telegram exactly when it has the
   fixed form. Otherwise nothing changes.
   */
  lemma AppliesIff(e: Env, s: TState, t: Telegram)
    ensures t.kind == LegacyTx ==>
              (Apply(e, s, t).1.Some?
               <==> GetNonce(e.world, s.o, t.from) == t.nonce && GetBalance(e.world, s.o, t.from) >= t.gasPrice * t.gas)
    ensures t.kind == StateTx ==>
              (Apply(e, s, t).1.Some?
               <==> && t.gasPrice == 0 && t.gas == 1000000 && t.from == 0xffffFFFfFFffffffffffffffFfFFFfffFFFfFFfE
                    && t.to.Some? && t.to.value != 0)
    ensures Apply(e, s, t).1 == None ==> Apply(e, s, t).0 == s
  {
    hide Execute, Settle, UpdateGasUsed, GetRefund;
    var cost := t.gasPrice * t.gas;
    SubReads(e.world, s.o, t.from, cost, t.from);
    ReadingIs(e.world, s.o, t.from, 0);
  }

  // ---------- calls ----------

  /** What a call shows the interpreter: the value is with the recipient already. */
  ghost predicate SeesCall(w: World, seen: Overlay, o: Overlay, c: Contract) {
    && (forall b: Address ::
          Differs(ReadAt(w, seen, b), ReadAt(w, o, b), If(c.caller == b, c.value), If(c.address == b, c.value)))
    && seen.logs == o.logs && seen.refund == o.refund
  }

  lemma MoveReads(e: Env, o: Overlay, from: Address, to: Address, amount: nat)
    ensures Transfer(e, o, from, to, amount).Some? <==> ReadAt(e.world, o, from).balance >= amount
    ensures Transfer(e, o, from, to, amount).Some? ==>
              forall b: Address ::
                Differs(ReadAt(e.world, Transfer(e, o, from, to, amount).value, b), ReadAt(e.world, o, b), If(from == b, amount), If(to == b, amount))
  {
    hide ReadAt, AddBalance, SubBalance;
    SubReads(e.world, o, from, amount, from);
    var less := SubBalance(e.world, o, from, amount);
    if less.Some? {
      forall b: Address
        ensures Differs(ReadAt(e.world, Transfer(e, o, from, to, amount).value, b), ReadAt(e.world, o, b), If(from == b, amount), If(to == b, amount))
      {
        SubReads(e.world, o, from, amount, b);
        AddReads(e.world, less.value, to, amount, b);
      }
    }
  }

  lemma MoveKeeps(e: Env, o: Overlay, from: Address, to: Address, amount: nat)
    ensures Transfer(e, o, from, to, amount).Some? ==>
              var o' := Transfer(e, o, from, to, amount).value; o'.logs == o.logs && o'.refund == o.refund
  {
  }

  /**
   A call: refused for its depth or for want of funds with all its gas left and
   nothing to be read changed; otherwise it is what the interpreter makes of the
   overlay with the value moved, and nothing at all if that fails.
   */
  lemma CallOutcome(e: Env, ctx: Ctx, o: Overlay, c: Contract) returns (seen: Overlay)
    ensures var (o', r) := ApplyCall(e, ctx, o, c, true);
            if c.depth > 1025 then o' == o && r == Result([], c.gas, 0, true)
            else if GetBalance(e.world, o, c.caller) < c.value then
              && r == Result([], c.gas, 0, true)
              && (forall b: Address :: ReadAt(e.world, o', b) == ReadAt(e.world, o, b)) && o'.logs == o.logs && o'.refund == o.refund
            else
              && SeesCall(e.world, seen, o, c) && r == e.run(ctx, c, seen).1
              && o' == if r.failed then o else e.run(ctx, c, seen).0
  {
    hide ReadAt, Transfer, TouchAccount;
    var touched := TouchAccount(e.world, o, c.address);
    TouchKeeps(e.world, o, c.address);
    forall b: Address ensures ReadAt(e.world, touched, b) == ReadAt(e.world, o, b) {
      TouchReads(e.world, o, c.address, b);
    }
    ReadingIs(e.world, o, c.caller, 0);
    MoveReads(e, touched, c.caller, c.address, c.value);
    MoveKeeps(e, touched, c.caller, c.address, c.value);
    var paid := Transfer(e, touched, c.caller, c.address, c.value);
    seen := if paid.Some? then paid.value else o;
  }

  lemma TouchKeeps(w: World, o: Overlay, a: Address)
    ensures TouchAccount(w, o, a).logs == o.logs && TouchAccount(w, o, a).refund == o.refund
  {
  }

  /** Without a transfer the interpreter sees the overlay as it was. */
  lemma CallWithoutTransfer(e: Env, ctx: Ctx, o: Overlay, c: Contract) returns (seen: Overlay)
    ensures var (o', r) := ApplyCall(e, ctx, o, c, false);
            if c.depth > 1025 then o' == o && r.failed && r.gasLeft == c.gas && r.returnValue == []
            else
              && (forall b: Address :: ReadAt(e.world, seen, b) == ReadAt(e.world, o, b))
              && r == e.run(ctx, c, seen).1 && o' == if r.failed then o else e.run(ctx, c, seen).0
  {
    hide ReadAt, TouchAccount;
    seen := TouchAccount(e.world, o, c.address);
    forall b: Address ensures ReadAt(e.world, seen, b) == ReadAt(e.world, o, b) {
      TouchReads(e.world, o, c.address, b);
    }
  }

  // ---------- creations ----------

  /** As before, with the caller's nonce one higher. */
  ghost predicate OnlyCounted(w: World, o': Overlay, o: Overlay, caller: Address) {
    && (forall b: Address :: ReadAt(w, o', b) == if b == caller then Counted(ReadAt(w, o, b)) else ReadAt(w, o, b))
    && o'.logs == o.logs && o'.refund == o.refund
  }

  /** An account that is created over what was there: only the balance stays. */
  function Fresh(r: Reading): Reading {
    NOTHING.(balance := r.balance, nonce := 1)
  }

  /** As counted, with the new account in place if the fork asks for it. */
  ghost predicate Opened(e: Env, o2: Overlay, o1: Overlay, a: Address) {
    && (forall b: Address :: ReadAt(e.world, o2, b) == if b == a && e.eip158 then Fresh(ReadAt(e.world, o1, b)) else ReadAt(e.world, o1, b))
    && o2.logs == o1.logs && o2.refund == o1.refund
  }

  lemma CountKeeps(w: World, o: Overlay, a: Address)
    ensures OnlyCounted(w, IncrNonce(w, o, a), o, a)
  {
    hide ReadAt;
    forall b: Address {
      CountReads(w, o, a, b);
    }
  }

  lemma OpenReads(e: Env, o: Overlay, a: Address)
    ensures Opened(e, Prepared(e, o, a), o, a)
  {
    hide ReadAt;
    forall b: Address
      ensures ReadAt(e.world, Prepared(e, o, a), b) == if b == a && e.eip158 then Fresh(ReadAt(e.world, o, b)) else ReadAt(e.world, o, b)
    {
      CreateReads(e.world, o, a, b);
      CountReads(e.world, CreateAccount(e.world, o, a), a, b);
    }
  }

  /** The address is taken: it has a nonce or code. */
  ghost predicate Taken(w: World, o: Overlay, a: Address) {
    ReadAt(w, o, a).nonce != 0 || ReadAt(w, o, a).code != []
  }

  /** The overlay after a creation that succeeded: the code is at the new address, the rest as the interpreter left it. */
  ghost predicate Deployed(w: World, o': Overlay, after: Overlay, a: Address, code: Code) {
    && (forall b: Address :: ReadAt(w, o', b) == if b == a then ReadAt(w, after, b).(code := code) else ReadAt(w, after, b))
    && o'.logs == after.logs && o'.refund == after.refund
  }

  lemma DeployReads(w: World, after: Overlay, a: Address, code: Code)
    ensures Deployed(w, SetCode(w, after, a, code), after, a, code)
  {
    hide ReadAt;
    forall b: Address {
      CodeReads(w, after, a, code, b);
    }
  }

  /** Why a creation stops before the interpreter runs. */
  ghost predicate CreateRefused(e: Env, o: Overlay, c: Contract, counted: Overlay, placed: Overlay, o': Overlay, r: Result) {
    && r.failed && r.returnValue == []
    && if c.depth > 1025 then o' == o && r.gasLeft == c.gas
       else if Taken(e.world, counted, c.address) then o' == counted && r.gasLeft == 0
       else o' == placed && r.gasLeft == c.gas
  }

  /** What becomes of a creation that the interpreter has run. */
  ghost predicate CreateEnds(e: Env, c: Contract, counted: Overlay, after: Overlay, ran: Result, o': Overlay, r: Result) {
    var cost := 200 * |ran.returnValue|;
    if ran.failed then o' == counted && r == ran
    else if e.eip158 && |ran.returnValue| > 24576 then o' == counted && r.failed && r.gasLeft == 0
    else if ran.gasLeft < cost then
      && r.failed && r.returnValue == []
      && if e.homestead then o' == counted && r.gasLeft == 0 else o' == after && r.gasLeft == ran.gasLeft
    else
      && !r.failed && r.returnValue == ran.returnValue && r.gasLeft == ran.gasLeft - cost
      && Deployed(e.world, o', after, c.address, ran.returnValue)
  }

  /**
   A creation. It is refused for its depth, for a taken address (which costs all
   gas) or for want of funds (which leaves the new account behind). Otherwise the
   interpreter sees the new account with the value. If it succeeds within the
   limits of size and gas, its return value is the code at the new address. If
   not, only the caller's nonce is changed, except that before Homestead a
   creation that cannot pay for its code leaves everything the interpreter did.
   */
  lemma CreateOutcome(e: Env, ctx: Ctx, o: Overlay, c: Contract) returns (counted: Overlay, placed: Overlay, seen: Overlay)
    ensures OnlyCounted(e.world, counted, o, c.caller) && Opened(e, placed, counted, c.address)
    ensures var (o', r) := ApplyCreate(e, ctx, o, c);
            if c.depth > 1025 || Taken(e.world, counted, c.address) || GetBalance(e.world, o, c.caller) < c.value
            then CreateRefused(e, o, c, counted, placed, o', r)
            else SeesCall(e.world, seen, placed, c) && CreateEnds(e, c, counted, e.run(ctx, c, seen).0, e.run(ctx, c, seen).1, o', r)
  {
    hide ReadAt, Transfer, IncrNonce, Prepared, SetCode, GetBalance, GetNonce, GetCode, Deployed;
    counted := IncrNonce(e.world, o, c.caller);
    CountKeeps(e.world, o, c.caller);
    placed := Prepared(e, counted, c.address);
    OpenReads(e, counted, c.address);
    ReadingIs(e.world, counted, c.address, 0);
    ReadingIs(e.world, o, c.caller, 0);
    MoveReads(e, placed, c.caller, c.address, c.value);
    MoveKeeps(e, placed, c.caller, c.address, c.value);
    var paid := Transfer(e, placed, c.caller, c.address, c.value);
    seen := if paid.Some? then paid.value else o;
    var (after, r) := e.run(ctx, c, seen);
    DeployReads(e.world, after, c.address, r.returnValue);
  }

  // ---------- telegrams ----------

  /** As before, with the gas bought. */
  ghost predicate Bought(w: World, paid: Overlay, o: Overlay, t: Telegram) {
    && (forall b: Address :: Differs(ReadAt(w, paid, b), ReadAt(w, o, b), If(t.from == b, t.gasPrice * t.gas), 0))
    && paid.logs == o.logs && paid.refund == o.refund
  }

  /** The gas used is what the run used, less the refund, which is at most half of it. */
  ghost predicate Charged(gas: nat, refund: nat, ran: Result, r: Result) {
    && r.returnValue == ran.returnValue && r.failed == ran.failed
    && (ran.gasLeft <= gas ==>
          var used := gas - ran.gasLeft;
          var back := if refund < used / 2 then refund else used / 2;
          r.gasUsed == used - back && r.gasLeft == ran.gasLeft + back)
  }

  /** As before, with the rest of the gas money returned and the fee paid. */
  ghost predicate Settled(e: Env, o': Overlay, o: Overlay, t: Telegram, r: Result) {
    && (forall b: Address ::
          Differs(ReadAt(e.world, o', b), ReadAt(e.world, o, b), 0,
                  If(t.from == b, r.gasLeft * t.gasPrice) + If(e.coinbase == b, r.gasUsed * t.gasPrice)))
    && o'.logs == o.logs && o'.refund == o.refund
  }

  lemma PayReads(e: Env, o: Overlay, t: Telegram)
    requires CheckAndPay(e, o, t).Some?
    ensures Bought(e.world, CheckAndPay(e, o, t).value, o, t)
  {
    hide ReadAt, SubBalance;
    var cost := t.gasPrice * t.gas;
    SubKeeps(e.world, o, t.from, cost);
    forall b: Address ensures Differs(ReadAt(e.world, CheckAndPay(e, o, t).value, b), ReadAt(e.world, o, b), If(t.from == b, cost), 0) {
      SubReads(e.world, o, t.from, cost, b);
    }
  }

  lemma SubKeeps(w: World, o: Overlay, a: Address, amount: nat)
    ensures SubBalance(w, o, a, amount).Some? ==>
              var o' := SubBalance(w, o, a, amount).value; o'.logs == o.logs && o'.refund == o.refund
  {
  }

  lemma SettleReads(e: Env, o: Overlay, t: Telegram, r: Result)
    ensures Settled(e, Settle(e, o, t, r), o, t, r)
  {
    hide ReadAt, AddBalance;
    var left, fee := r.gasLeft * t.gasPrice, r.gasUsed * t.gasPrice;
    var o1 := AddBalance(e.world, o, t.from, left);
    AddKeeps(e.world, o, t.from, left);
    AddKeeps(e.world, o1, e.coinbase, fee);
    forall b: Address
      ensures Differs(ReadAt(e.world, Settle(e, o, t, r), b), ReadAt(e.world, o, b), 0, If(t.from == b, left) + If(e.coinbase == b, fee))
    {
      AddReads(e.world, o, t.from, left, b);
      AddReads(e.world, o1, e.coinbase, fee, b);
    }
  }

  lemma AddKeeps(w: World, o: Overlay, a: Address, amount: nat)
    ensures AddBalance(w, o, a, amount).logs == o.logs && AddBalance(w, o, a, amount).refund == o.refund
  {
  }

  lemma ChargeIs(ran: Result, gas: nat, refund: nat)
    requires gas < U64
    ensures Charged(gas, refund, ran, UpdateGasUsed(ran, gas, refund))
  {
    if ran.gasLeft <= gas {
      assert (gas - ran.gasLeft) % U64 == gas - ran.gasLeft;
    }
  }

  /** The contract that a call runs has the code of its recipient and the telegram's input. */
  function CallOf(e: Env, o: Overlay, t: Telegram, to: Address): Contract {
    Contract(1, t.from, to, t.value, t.gas, GetCode(e.world, o, to), t.input)
  }

  /** A creation runs the telegram's input, at the address for the sender's nonce. */
  function CreationOf(e: Env, o: Overlay, t: Telegram): Contract {
    Contract(1, t.from, e.createAddress(t.from, GetNonce(e.world, o, t.from)), t.value, t.gas, t.input, [])
  }

  /**
   A telegram that is applied: the gas is bought; a call counts the nonce and
   runs the recipient's code, a creation runs the input; the interpreter's gas is
   charged less the refund, and settled with the sender and the coinbase.
   */
  lemma TelegramOutcome(e: Env, s: TState, t: Telegram) returns (paid: Overlay, counted: Overlay, ran: Overlay, result: Result)
    requires Apply(e, s, t).1.Some? && t.gas < U64
    ensures Bought(e.world, paid, s.o, t) && OnlyCounted(e.world, counted, paid, t.from)
    ensures (ran, result) == (match t.to
                              case None => ApplyCreate(e, Ctx(t.gasPrice, t.from), paid, CreationOf(e, s.o, t))
                              case Some(to) => ApplyCall(e, Ctx(t.gasPrice, t.from), counted, CallOf(e, s.o, t, to), true))
    ensures var (s', r) := Apply(e, s, t);
            && Charged(t.gas, GetRefund(ran), result, r.value) && Settled(e, s'.o, ran, t, r.value)
            && s' == s.(o := s'.o, ctx := Ctx(t.gasPrice, t.from), gasPool := (s.gasPool + r.value.gasLeft) % U64)
  {
    hide ReadAt, ApplyCreate, ApplyCall, CheckAndPay, IncrNonce, GetCode, GetNonce, UpdateGasUsed, Settle, GetRefund;
    hide Charged, Settled;
    paid := CheckAndPay(e, s.o, t).value;
    PayReads(e, s.o, t);
    counted := IncrNonce(e.world, paid, t.from);
    CountKeeps(e.world, paid, t.from);
    var (ran', result') := Execute(e, Ctx(t.gasPrice, t.from), paid, t);
    ran, result := ran', result';
    ReadingIs(e.world, s.o, t.from, 0);
    ReadingIs(e.world, paid, t.from, 0);
    if t.to.Some? {
      ReadingIs(e.world, s.o, t.to.value, 0);
      ReadingIs(e.world, counted, t.to.value, 0);
    }
    ChargeIs(result, t.gas, GetRefund(ran));
    SettleReads(e, ran, t, UpdateGasUsed(result, t.gas, GetRefund(ran)));
  }

  // ---------- receipts ----------

  /** The telegram with its sender: a legacy telegram without one gets the one its signature recovers to. */
  ghost predicate IsSent(e: Env, tele: Telegram, t: Telegram) {
    if tele.from == 0 && tele.kind == LegacyTx then e.sender(tele).Some? && t == tele.(from := e.sender(tele).value) else t == tele
  }

  /** Which error a write gives, if it gives one. */
  lemma WriteFailsIff(e: Env, s: TState, tele: Telegram)
    ensures Write(e, s, tele).1 == Some(ApplicationError(false)) <==> tele.from == 0 && tele.kind == LegacyTx && e.sender(tele) == None
    ensures Write(e, s, tele).1 == Some(ApplicationError(true)) <==> exists t :: IsSent(e, tele, t) && Apply(e, s, t).1 == None
    ensures Write(e, s, tele).1 == None <==> exists t :: IsSent(e, tele, t) && Apply(e, s, t).1.Some?
  {
    hide Apply;
    if tele.from != 0 || tele.kind != LegacyTx || e.sender(tele).Some? {
      var t := tele.(from := Recover(e, tele).value);
      assert IsSent(e, tele, t) && forall u | IsSent(e, tele, u) :: u == t;
    }
  }

  /**
   The receipt of a written telegram tells its outcome: the gas, whether the run
   succeeded, the logs it left, and for a creation the address. Cleaning then
   takes away the marked and the empty accounts, and the counters start afresh.
   */
  lemma WriteOutcome(e: Env, s: TState, tele: Telegram, t: Telegram)
    requires IsSent(e, tele, t) && Apply(e, s, t).1.Some?
    ensures var (s1, r) := Apply(e, s, t);
            var s' := Write(e, s, tele).0;
            && |s'.receipts| == |s.receipts| + 1 && s'.receipts[..|s.receipts|] == s.receipts
            && var receipt := s'.receipts[|s.receipts|];
            && receipt.kind == tele.kind && receipt.hash == e.hash(t)
            && receipt.gasUsed == r.value.gasUsed && receipt.cumulativeGasUsed == s'.totalGas == (s.totalGas + r.value.gasUsed) % U64
            && receipt.success == !r.value.failed
            && receipt.logs == (match s1.o.logs case None => [] case Some(logs) => logs)
            && receipt.application == (if tele.to == None then Some(e.createAddress(t.from, tele.nonce)) else None)
            && s'.o.logs == None && s'.o.refund == None && s'.ctx == s1.ctx && s'.gasPool == s1.gasPool
  {
    hide Apply, CleanDelete;
    WriteIs(e, s, tele, t);
    ApplyKeepsReceipts(e, s, t);
    CleanKeeps(TakeLogs(Apply(e, s, t).0.o).0);
  }

  lemma WriteIs(e: Env, s: TState, tele: Telegram, t: Telegram)
    requires IsSent(e, tele, t)
    ensures Recover(e, tele) == Some(t.from) && t == tele.(from := t.from)
  {
  }

  lemma ApplyKeepsReceipts(e: Env, s: TState, t: Telegram)
    ensures Apply(e, s, t).0.receipts == s.receipts && Apply(e, s, t).0.totalGas == s.totalGas
  {
    hide CheckAndPay, Execute, Settle, UpdateGasUsed, GetRefund;
  }

  lemma CleanKeeps(o: Overlay)
    ensures CleanDelete(o, true).logs == o.logs && CleanDelete(o, true).refund == None
  {
  }

  /** After the write an account that was marked or empty is gone; the others are as the telegram left them. */
  lemma WriteReads(e: Env, s: TState, tele: Telegram, t: Telegram, b: Address)
    requires IsSent(e, tele, t) && Apply(e, s, t).1.Some?
    ensures var o := Apply(e, s, t).0.o;
            var r := ReadAt(e.world, o, b);
            var empty := b in o.objects && r.nonce == 0 && r.balance == 0 && r.code == [];
            ReadAt(e.world, Write(e, s, tele).0.o, b) == if r.marked || empty then NOTHING else r
  {
    hide Apply, ReadAt, CleanDelete;
    WriteIs(e, s, tele, t);
    var o := Apply(e, s, t).0.o;
    LogsDoNotRead(e.world, o, b);
    CleanReads(e.world, TakeLogs(o).0, b);
  }

  lemma LogsDoNotRead(w: World, o: Overlay, b: Address)
    ensures ReadAt(w, TakeLogs(o).0, b) == ReadAt(w, o, b)
  {
  }

  /** The address in the receipt of a successful creation is where the code is. */
  lemma CreationIsThere(e: Env, s: TState, t: Telegram)
    requires t.kind == LegacyTx && t.to == None && t.gas < U64 && Apply(e, s, t).1.Some? && !Apply(e, s, t).1.value.failed
    ensures GetCode(e.world, Apply(e, s, t).0.o, e.createAddress(t.from, t.nonce)) == Apply(e, s, t).1.value.returnValue
  {
    hide ReadAt, Apply, ApplyCreate, GetCode, GetRefund, Bought, OnlyCounted;
    AppliesIff(e, s, t);
    var paid, _, ran, result := TelegramOutcome(e, s, t);
    var c := CreationOf(e, s.o, t);
    var _, _, seen := CreateOutcome(e, Ctx(t.gasPrice, t.from), paid, c);
    ReadingIs(e.world, Apply(e, s, t).0.o, c.address, 0);
  }

  /** A telegram that is not run leaves a receipt of failure without gas, and changes nothing that can be read. */
  lemma FailedReceipt(e: Env, s: TState, tele: Telegram)
    ensures WriteFailedReceipt(e, s, tele).1 == (if exists t :: IsSent(e, tele, t) then None else Some(ApplicationError(false)))
    ensures WriteFailedReceipt(e, s, tele).1.Some? ==> WriteFailedReceipt(e, s, tele).0 == s
    ensures forall t | IsSent(e, tele, t) ::
              var s' := WriteFailedReceipt(e, s, tele).0;
              var logs := match s.o.logs case None => [] case Some(ls) => ls;
              var application := if tele.to == None then Some(e.createAddress(t.from, tele.nonce)) else None;
              s' == s.(o := s.o.(logs := None), receipts := s.receipts + [Receipt(0, tele.kind, e.hash(t), 0, false, application, logs)])
  {
    if tele.from != 0 || tele.kind != LegacyTx || e.sender(tele).Some? {
      assert IsSent(e, tele, tele.(from := Recover(e, tele).value));
    }
  }
}
