/**
 No telegram is executed twice: the telegrams of one sender that a block
 executes carry the nonces that follow the sender's, one after the other.
 */
module Replay {
  import opened Common
  import opened State
  import opened Readings
  import opened Executor
  import opened ExecutorLaws
  import opened BlockBuilding
  import opened Telegrams

  /** The telegrams of a block that are executed for a sender. */
  function Executed(e: Env, gasLimit: nat, ts: seq<Telegram>, a: Address): seq<Telegram> {
    if ts == [] then []
    else
      var n := |ts| - 1;
      Executed(e, gasLimit, ts[..n], a) + if ts[n].gas <= gasLimit && Recover(e, ts[n]) == Some(a) then [ts[n]] else []
  }

  /** The interpreter never lowers the nonce of `a` and does not mark it for deletion. */
  ghost predicate NeverLowers(e: Env, a: Address) {
    forall ctx: Ctx, c: Contract, o: Overlay ::
      var before, after := ReadAt(e.world, o, a), ReadAt(e.world, e.run(ctx, c, o).0, a);
      after.nonce >= before.nonce && (after.marked ==> before.marked)
  }

  /** The interpreter leaves the nonce of `a` alone, and no contract is created there. */
  ghost predicate LeavesNonce(e: Env, a: Address) {
    && (forall ctx: Ctx, c: Contract, o: Overlay ::
          var before, after := ReadAt(e.world, o, a), ReadAt(e.world, e.run(ctx, c, o).0, a);
          after.nonce == before.nonce && (after.marked ==> before.marked))
    && forall b: Address, n: nat :: e.createAddress(b, n) != a
  }

  /** A nonce after a step, for an interpreter that never lowers it, and for one that leaves it. */
  ghost predicate NonceStep(e: Env, a: Address, before: Reading, after: Reading, base: nat) {
    && (NeverLowers(e, a) || LeavesNonce(e, a) ==> after.nonce >= base && (after.marked ==> before.marked))
    && (LeavesNonce(e, a) ==> after.nonce == base)
  }

  lemma RunStep(e: Env, ctx: Ctx, c: Contract, o: Overlay, a: Address)
    ensures var before := ReadAt(e.world, o, a);
            NonceStep(e, a, before, ReadAt(e.world, e.run(ctx, c, o).0, a), before.nonce)
  {
    hide ReadAt;
  }

  lemma CallNonce(e: Env, ctx: Ctx, o: Overlay, c: Contract, a: Address)
    ensures var before := ReadAt(e.world, o, a);
            NonceStep(e, a, before, ReadAt(e.world, ApplyCall(e, ctx, o, c, true).0, a), before.nonce)
  {
    hide ReadAt, ApplyCall, NeverLowers, LeavesNonce, GetBalance;
    var seen := CallOutcome(e, ctx, o, c);
    RunStep(e, ctx, c, seen, a);
    if c.depth <= 1025 && GetBalance(e.world, o, c.caller) >= c.value {
      assert Differs(ReadAt(e.world, seen, a), ReadAt(e.world, o, a), If(c.caller == a, c.value), If(c.address == a, c.value));
    }
  }

  /** The nonce a creation starts from: the caller's is counted first. */
  function Base(e: Env, o: Overlay, from: Address, a: Address): nat {
    var n := ReadAt(e.world, o, a).nonce;
    if a == from then (n + 1) % U64 else n
  }

  lemma CountedAt(w: World, o': Overlay, o: Overlay, caller: Address, a: Address)
    requires OnlyCounted(w, o', o, caller)
    ensures ReadAt(w, o', a) == if a == caller then Counted(ReadAt(w, o, a)) else ReadAt(w, o, a)
  {
    hide ReadAt;
  }

  lemma OpenedAt(e: Env, o': Overlay, o: Overlay, c: Address, a: Address)
    requires Opened(e, o', o, c)
    ensures ReadAt(e.world, o', a) == if a == c && e.eip158 then Fresh(ReadAt(e.world, o, a)) else ReadAt(e.world, o, a)
  {
    hide ReadAt;
  }

  lemma SeenAt(w: World, seen: Overlay, o: Overlay, c: Contract, a: Address)
    requires SeesCall(w, seen, o, c)
    ensures ReadAt(w, seen, a).nonce == ReadAt(w, o, a).nonce && ReadAt(w, seen, a).marked == ReadAt(w, o, a).marked
  {
    hide ReadAt;
    assert Differs(ReadAt(w, seen, a), ReadAt(w, o, a), If(c.caller == a, c.value), If(c.address == a, c.value));
  }

  lemma DeployedAt(w: World, o': Overlay, o: Overlay, c: Address, code: Code, a: Address)
    requires Deployed(w, o', o, c, code)
    ensures ReadAt(w, o', a).nonce == ReadAt(w, o, a).nonce && ReadAt(w, o', a).marked == ReadAt(w, o, a).marked
  {
    hide ReadAt;
  }

  lemma CreateNonce(e: Env, ctx: Ctx, o: Overlay, c: Contract, a: Address)
    requires c.depth <= 1025 && exists b: Address, n: nat :: c.address == e.createAddress(b, n)
    ensures NonceStep(e, a, ReadAt(e.world, o, a), ReadAt(e.world, ApplyCreate(e, ctx, o, c).0, a), Base(e, o, c.caller, a))
  {
    hide ReadAt, ApplyCreate, NeverLowers, GetBalance, OnlyCounted, Opened, SeesCall, Deployed, Taken;
    assert LeavesNonce(e, a) ==> c.address != a;
    hide LeavesNonce;
    var counted, placed, seen := CreateOutcome(e, ctx, o, c);
    CountedAt(e.world, counted, o, c.caller, a);
    OpenedAt(e, placed, counted, c.address, a);
    TakenAt(e.world, counted, a);
    if !Taken(e.world, counted, c.address) && GetBalance(e.world, o, c.caller) >= c.value {
      SeenAt(e.world, seen, placed, c, a);
      RunStep(e, ctx, c, seen, a);
      var (after, r) := e.run(ctx, c, seen);
      var o' := ApplyCreate(e, ctx, o, c).0;
      if Deployed(e.world, o', after, c.address, r.returnValue) {
        DeployedAt(e.world, o', after, c.address, r.returnValue, a);
      }
    }
  }

  lemma TakenAt(w: World, o: Overlay, a: Address)
    ensures ReadAt(w, o, a).nonce != 0 ==> Taken(w, o, a)
  {
  }

  lemma ApplyNonce(e: Env, s: TState, t: Telegram, a: Address)
    requires Apply(e, s, t).1.Some? && t.gas < U64
    ensures NonceStep(e, a, ReadAt(e.world, s.o, a), ReadAt(e.world, Apply(e, s, t).0.o, a), Base(e, s.o, t.from, a))
  {
    hide ReadAt, Apply, ApplyCall, ApplyCreate, NeverLowers, LeavesNonce, GetRefund, GetNonce, GetCode;
    var paid, counted, ran, r := TelegramOutcome(e, s, t);
    var ctx := Ctx(t.gasPrice, t.from);
    assert Differs(ReadAt(e.world, paid, a), ReadAt(e.world, s.o, a), If(t.from == a, t.gasPrice * t.gas), 0);
    assert ReadAt(e.world, counted, a) == if a == t.from then Counted(ReadAt(e.world, paid, a)) else ReadAt(e.world, paid, a);
    match t.to
    case None => CreateNonce(e, ctx, paid, CreationOf(e, s.o, t), a);
    case Some(to) => CallNonce(e, ctx, counted, CallOf(e, s.o, t, to), a);
  }

  /** One telegram of the block, for an address that was not marked. */
  lemma WriteNonce(e: Env, s: TState, tele: Telegram, a: Address)
    requires Write(e, s, tele).1 == None && tele.gas < U64 && !ReadAt(e.world, s.o, a).marked && Recover(e, tele).Some?
    requires NeverLowers(e, a) || LeavesNonce(e, a)
    ensures var base, after := Base(e, s.o, Recover(e, tele).value, a), ReadAt(e.world, Write(e, s, tele).0.o, a);
            && after.nonce >= base && !after.marked && (LeavesNonce(e, a) ==> after.nonce == base)
    ensures tele.kind == LegacyTx && Recover(e, tele) == Some(a) ==> tele.nonce == ReadAt(e.world, s.o, a).nonce
  {
    hide ReadAt, Apply, NeverLowers, LeavesNonce, Base, GetNonce, GetBalance, Write;
    var t := tele.(from := Recover(e, tele).value);
    WriteFailsIff(e, s, tele);
    assert IsSent(e, tele, t);
    ApplyNonce(e, s, t, a);
    WriteReads(e, s, tele, t, a);
    AppliesIff(e, s, t);
    ReadingIs(e.world, s.o, a, 0);
  }

  lemma ExecutedOne(e: Env, gasLimit: nat, ts: seq<Telegram>, t: Telegram, a: Address)
    ensures Executed(e, gasLimit, ts + [t], a)
            == Executed(e, gasLimit, ts, a) + if t.gas <= gasLimit && Recover(e, t) == Some(a) then [t] else []
  {
    assert (ts + [t])[..|ts + [t]| - 1] == ts;
  }

  /** One more telegram: written, or over the limit and so without effect on what is read. */
  lemma ProcessStep(e: Env, gasLimit: nat, s: TState, ts: seq<Telegram>, t: Telegram, a: Address)
    requires Process(e, gasLimit, s, ts + [t]).Some?
    ensures Process(e, gasLimit, s, ts).Some? && Recover(e, t).Some?
    ensures var before, after := Process(e, gasLimit, s, ts).value, Process(e, gasLimit, s, ts + [t]).value;
            if t.gas > gasLimit then ReadAt(e.world, after.o, a) == ReadAt(e.world, before.o, a)
            else Write(e, before, t) == (after, None)
  {
    hide Apply, ReadAt;
    assert (ts + [t])[..|ts + [t]| - 1] == ts;
    var before := Process(e, gasLimit, s, ts).value;
    LogsDoNotRead(e.world, before.o, a);
  }

  /**
   If the interpreter leaves the sender's nonce alone, the telegrams executed
   for a sender carry the nonces that follow the sender's before the block, one
   by one, modulo 2^64, and the sender's nonce afterwards is the next.
   */
  lemma {:induction false} NoncesFollow(e: Env, gasLimit: nat, s: TState, ts: seq<Telegram>, a: Address)
    requires LeavesNonce(e, a) && gasLimit < U64 && Process(e, gasLimit, s, ts).Some?
    requires ReadAt(e.world, s.o, a).nonce < U64 && !ReadAt(e.world, s.o, a).marked
    ensures var first, done := ReadAt(e.world, s.o, a).nonce, Executed(e, gasLimit, ts, a);
            var after := ReadAt(e.world, Process(e, gasLimit, s, ts).value.o, a);
            && (forall i | 0 <= i < |done| && done[i].kind == LegacyTx :: done[i].nonce == (first + i) % U64)
            && after.nonce == (first + |done|) % U64 && !after.marked
  {
    hide Process, Executed, ReadAt, LeavesNonce, Recover, Write;
    if ts == [] {
      ProcessNone(e, gasLimit, s, a);
    } else {
      var front, t := ts[..|ts| - 1], ts[|ts| - 1];
      assert ts == front + [t];
      ProcessStep(e, gasLimit, s, front, t, a);
      NoncesFollow(e, gasLimit, s, front, a);
      ExecutedOne(e, gasLimit, front, t, a);
      if t.gas <= gasLimit {
        WriteNonce(e, Process(e, gasLimit, s, front).value, t, a);
        NextNonce(ReadAt(e.world, s.o, a).nonce, |Executed(e, gasLimit, front, a)|);
      }
    }
  }

  lemma ProcessNone(e: Env, gasLimit: nat, s: TState, a: Address)
    ensures Process(e, gasLimit, s, []) == Some(s) && Executed(e, gasLimit, [], a) == []
  {
  }

  lemma NextNonce(first: nat, n: nat)
    ensures ((first + n) % U64 + 1) % U64 == (first + (n + 1)) % U64
  {
  }

  /** So none is executed twice. */
  lemma NoReplay(e: Env, gasLimit: nat, s: TState, ts: seq<Telegram>, a: Address, i: nat, j: nat)
    requires LeavesNonce(e, a) && gasLimit < U64 && Process(e, gasLimit, s, ts).Some?
    requires ReadAt(e.world, s.o, a).nonce < U64 && !ReadAt(e.world, s.o, a).marked
    requires i < j < |Executed(e, gasLimit, ts, a)| <= U64
    ensures var done := Executed(e, gasLimit, ts, a);
            done[i].kind == LegacyTx && done[j].kind == LegacyTx ==> done[i].nonce != done[j].nonce && done[i] != done[j]
  {
    hide Process, Executed, ReadAt, LeavesNonce;
    NoncesFollow(e, gasLimit, s, ts, a);
    WrapsApart(ReadAt(e.world, s.o, a).nonce, i, j);
  }

  lemma WrapsApart(first: nat, i: nat, j: nat)
    requires i < j < U64 + i && first < U64 && j < U64
    ensures (first + i) % U64 != (first + j) % U64
  {
  }

  /**
   With any interpreter that never lowers the sender's nonce, the nonces executed
   still increase, as long as none is the last of all.
   */
  lemma {:induction false} NoncesIncrease(e: Env, gasLimit: nat, s: TState, ts: seq<Telegram>, a: Address)
    requires NeverLowers(e, a) && gasLimit < U64 && Process(e, gasLimit, s, ts).Some? && !ReadAt(e.world, s.o, a).marked
    requires forall t | t in Executed(e, gasLimit, ts, a) :: t.kind == LegacyTx && t.nonce + 1 < U64
    ensures var first, done := ReadAt(e.world, s.o, a).nonce, Executed(e, gasLimit, ts, a);
            var after := ReadAt(e.world, Process(e, gasLimit, s, ts).value.o, a);
            && (forall i | 0 <= i < |done| :: first <= done[i].nonce < after.nonce)
            && (forall i, j | 0 <= i < j < |done| :: done[i].nonce < done[j].nonce)
            && first <= after.nonce && !after.marked
  {
    hide Process, Executed, ReadAt, NeverLowers, LeavesNonce, Recover, Write;
    if ts == [] {
      ProcessNone(e, gasLimit, s, a);
    } else {
      var front, t := ts[..|ts| - 1], ts[|ts| - 1];
      assert ts == front + [t];
      ProcessStep(e, gasLimit, s, front, t, a);
      ExecutedOne(e, gasLimit, front, t, a);
      NoncesIncrease(e, gasLimit, s, front, a);
      if t.gas <= gasLimit {
        WriteNonce(e, Process(e, gasLimit, s, front).value, t, a);
        assert Recover(e, t) == Some(a) ==> t in Executed(e, gasLimit, ts, a);
      }
    }
  }
}
