/**
 Building a block and checking it: the builder tries telegrams one by one and
 keeps those that succeed; a validator replays only the kept ones.
 */
module BlockBuilding {
  import opened Common
  import opened State
  import opened Executor
  import opened ExecutorLaws
  import opened Telegrams

  predicate Exceeds(t: Telegram, gasLimit: nat) {
    t.gas > gasLimit
  }

  // ---------- specification ----------

  datatype Status = Success | Fail | Skip | Stop

  /** What the builder does with one telegram. */
  function BuildStep(e: Env, gasLimit: nat, s: TState, t: Telegram): (TState, Status) {
    if Exceeds(t, gasLimit) then (WriteFailedReceipt(e, s, t).0, Fail)
    else
      var (s', err) := Write(e, s, t);
      if err == None then (s', Success)
      else if err.value == GasLimitReached then (s', Stop)
      else if err.value.recoverable then (s', Skip)
      else (s', Fail)
  }

  /** The state after trying `ts` in order, and the telegrams kept. */
  function Build(e: Env, gasLimit: nat, s: TState, ts: seq<Telegram>): (TState, seq<Telegram>) {
    if ts == [] then (s, [])
    else
      var (s1, executed) := Build(e, gasLimit, s, ts[..|ts| - 1]);
      var t := ts[|ts| - 1];
      var (s2, status) := BuildStep(e, gasLimit, s1, t);
      (s2, if status == Success then executed + [t] else executed)
  }

  /** What a validator does with the telegrams of a block. */
  function Process(e: Env, gasLimit: nat, s: TState, ts: seq<Telegram>): Option<TState> {
    if ts == [] then Some(s)
    else
      var before := Process(e, gasLimit, s, ts[..|ts| - 1]);
      if before == None then None
      else
        var t := ts[|ts| - 1];
        var (s', err) := if Exceeds(t, gasLimit) then WriteFailedReceipt(e, before.value, t) else Write(e, before.value, t);
        if err == None then Some(s') else None
  }

  /** A legacy telegram travels without its sender. */
  function OnWire(t: Telegram): Telegram {
    if t.kind == LegacyTx then t.(from := NO_ADDRESS) else t
  }

  function AllOnWire(ts: seq<Telegram>): seq<Telegram> {
    seq(|ts|, i requires 0 <= i < |ts| => OnWire(ts[i]))
  }

  /** A legacy telegram names the sender that its signature recovers to, also on the other side of the wire. */
  ghost predicate Admitted(e: Env, t: Telegram) {
    t.kind == LegacyTx ==> e.sender(OnWire(t)) == e.sender(t) && (t.from != NO_ADDRESS ==> e.sender(t) == Some(t.from))
  }

  lemma SignedIsAdmitted(e: Env, t: Telegram)
    requires SignsContent(e.sender) && Signed(e.sender, t)
    ensures Admitted(e, t)
  {
    assert t.(from := NO_ADDRESS, provider := t.provider, response := t.response) == t.(from := NO_ADDRESS);
  }

  /**
   The builder fails a telegram over the gas limit or without a sender, and
   otherwise keeps a legacy telegram exactly when its nonce is the sender's and
   the sender can pay for its gas; if not, it is skipped.
   */
  lemma StatusMeans(e: Env, gasLimit: nat, s: TState, t: Telegram)
    ensures var status := BuildStep(e, gasLimit, s, t).1;
            && (t.gas > gasLimit || (t.kind == LegacyTx && t.from == 0 && e.sender(t) == None) ==> status == Fail)
            && (t.kind == LegacyTx && t.gas <= gasLimit && (t.from != 0 || e.sender(t).Some?) ==>
                  var from := if t.from == 0 then e.sender(t).value else t.from;
                  var ok := GetNonce(e.world, s.o, from) == t.nonce && GetBalance(e.world, s.o, from) >= t.gasPrice * t.gas;
                  status == if ok then Success else Skip)
            && (t.kind == StateTx && t.gas <= gasLimit ==> status == if Apply(e, s, t).1.Some? then Success else Skip)
  {
    hide Apply, WriteFailedReceipt, GetNonce, GetBalance;
    if Recover(e, t).Some? {
      AppliesIff(e, s, t.(from := Recover(e, t).value));
    }
  }

  // ---------- a failed write changes nothing ----------

  lemma FailedWriteKeeps(e: Env, s: TState, t: Telegram)
    requires Write(e, s, t).1.Some?
    ensures Write(e, s, t).0 == s
  {
    hide CheckAndPay, Execute;
  }

  lemma WireWritesSame(e: Env, s: TState, t: Telegram)
    requires Admitted(e, t)
    ensures Recover(e, OnWire(t)) == Recover(e, t)
    ensures Write(e, s, OnWire(t)) == Write(e, s, t)
  {
    hide Apply;
    if Recover(e, t).Some? {
      assert OnWire(t).(from := Recover(e, t).value) == t.(from := Recover(e, t).value);
    }
  }

  /** A telegram over the limit for which the builder writes a receipt all the same. */
  predicate LeavesReceipt(e: Env, gasLimit: nat, t: Telegram) {
    Exceeds(t, gasLimit) && Recover(e, t).Some?
  }

  lemma WriteReceipts(e: Env, s: TState, t: Telegram)
    ensures |Write(e, s, t).0.receipts| == |s.receipts| + if Write(e, s, t).1 == None then 1 else 0
  {
    hide CheckAndPay, Execute;
  }

  function Over(e: Env, gasLimit: nat, ts: seq<Telegram>): nat {
    if ts == [] then 0
    else Over(e, gasLimit, ts[..|ts| - 1]) + if LeavesReceipt(e, gasLimit, ts[|ts| - 1]) then 1 else 0
  }

  lemma {:induction false} OverIsZero(e: Env, gasLimit: nat, ts: seq<Telegram>)
    ensures Over(e, gasLimit, ts) == 0 <==> forall t | t in ts :: !LeavesReceipt(e, gasLimit, t)
  {
    if ts != [] {
      var front, t := ts[..|ts| - 1], ts[|ts| - 1];
      OverIsZero(e, gasLimit, front);
      assert ts == front + [t];
      assert forall x :: x in ts <==> x in front || x == t;
    }
  }

  /** The builder has a receipt for every kept telegram and for every one that was over the limit. */
  lemma {:induction false} BuildReceipts(e: Env, gasLimit: nat, s: TState, ts: seq<Telegram>)
    ensures var (s', executed) := Build(e, gasLimit, s, ts);
            && |s'.receipts| == |s.receipts| + |executed| + Over(e, gasLimit, ts)
            && forall t | t in executed :: t in ts && !Exceeds(t, gasLimit)
  {
    if ts != [] {
      hide Write;
      var front, t := ts[..|ts| - 1], ts[|ts| - 1];
      BuildReceipts(e, gasLimit, s, front);
      WriteReceipts(e, Build(e, gasLimit, s, front).0, t);
      assert t in ts && forall x | x in front :: x in ts;
    }
  }

  lemma {:induction false} ProcessReceipts(e: Env, gasLimit: nat, s: TState, ts: seq<Telegram>)
    requires Process(e, gasLimit, s, ts).Some?
    ensures |Process(e, gasLimit, s, ts).value.receipts| == |s.receipts| + |ts|
  {
    if ts != [] {
      hide Write;
      var front, t := ts[..|ts| - 1], ts[|ts| - 1];
      ProcessReceipts(e, gasLimit, s, front);
      WriteReceipts(e, Process(e, gasLimit, s, front).value, t);
    }
  }

  lemma ProcessOneMore(e: Env, gasLimit: nat, s: TState, ts: seq<Telegram>, t: Telegram, s1: TState)
    requires Process(e, gasLimit, s, ts) == Some(s1) && !Exceeds(t, gasLimit) && Write(e, s1, t).1 == None
    ensures Process(e, gasLimit, s, ts + [t]) == Some(Write(e, s1, t).0)
  {
    hide Write;
    assert (ts + [t])[..|ts + [t]| - 1] == ts;
  }

  /** A telegram that is not kept leaves no trace, unless it leaves a receipt. */
  lemma QuietStep(e: Env, gasLimit: nat, s: TState, t: Telegram)
    requires !LeavesReceipt(e, gasLimit, t) && BuildStep(e, gasLimit, s, t).1 != Success
    ensures BuildStep(e, gasLimit, s, t).0 == s
  {
    hide Write;
    if !Exceeds(t, gasLimit) {
      FailedWriteKeeps(e, s, t);
    }
  }

  lemma KeptStep(e: Env, gasLimit: nat, s: TState, t: Telegram)
    requires Admitted(e, t) && BuildStep(e, gasLimit, s, t).1 == Success
    ensures !Exceeds(OnWire(t), gasLimit) && Write(e, s, OnWire(t)) == (BuildStep(e, gasLimit, s, t).0, None)
  {
    hide Write;
    WireWritesSame(e, s, t);
  }

  /** Without such receipts the replay arrives at the builder's state. */
  lemma {:induction false} ReplayMatches(e: Env, gasLimit: nat, s: TState, ts: seq<Telegram>)
    requires forall t | t in ts :: Admitted(e, t) && !LeavesReceipt(e, gasLimit, t)
    ensures var (s', executed) := Build(e, gasLimit, s, ts);
            Process(e, gasLimit, s, AllOnWire(executed)) == Some(s')
  {
    if ts != [] {
      hide Write, BuildStep, Process, LeavesReceipt, Admitted;
      var front, t := ts[..|ts| - 1], ts[|ts| - 1];
      assert t in ts && forall x | x in front :: x in ts;
      ReplayMatches(e, gasLimit, s, front);
      var (s1, executed) := Build(e, gasLimit, s, front);
      if BuildStep(e, gasLimit, s1, t).1 == Success {
        KeptStep(e, gasLimit, s1, t);
        ProcessOneMore(e, gasLimit, s, AllOnWire(executed), OnWire(t), s1);
        assert AllOnWire(executed + [t]) == AllOnWire(executed) + [OnWire(t)];
      } else {
        QuietStep(e, gasLimit, s1, t);
      }
    } else {
      assert AllOnWire([]) == [];
    }
  }

  /**
   Builder and validator agree on the overlay, the receipts and the gas exactly
   when none of the telegrams tried was over the block gas limit (with a sender
   that can be recovered): the builder writes a receipt for such a telegram but
   does not put it into the block.
   */
  lemma BuilderAgreesIff(e: Env, gasLimit: nat, s: TState, ts: seq<Telegram>)
    requires forall t | t in ts :: Admitted(e, t)
    ensures var (s', executed) := Build(e, gasLimit, s, ts);
            Process(e, gasLimit, s, AllOnWire(executed)) == Some(s')
            <==> forall t | t in ts :: !LeavesReceipt(e, gasLimit, t)
  {
    var (s', executed) := Build(e, gasLimit, s, ts);
    OverIsZero(e, gasLimit, ts);
    if forall t | t in ts :: !LeavesReceipt(e, gasLimit, t) {
      ReplayMatches(e, gasLimit, s, ts);
    } else {
      BuildReceipts(e, gasLimit, s, ts);
      if Process(e, gasLimit, s, AllOnWire(executed)).Some? {
        ProcessReceipts(e, gasLimit, s, AllOnWire(executed));
      }
    }
  }

  /** In either case the builder's receipts outnumber the block's telegrams by those over the limit. */
  lemma ExtraReceipts(e: Env, gasLimit: nat, s: TState, ts: seq<Telegram>)
    requires s.receipts == []
    ensures var (s', executed) := Build(e, gasLimit, s, ts);
            |s'.receipts| == |executed| <==> forall t | t in ts :: !LeavesReceipt(e, gasLimit, t)
  {
    BuildReceipts(e, gasLimit, s, ts);
    OverIsZero(e, gasLimit, ts);
  }

  /** One telegram of 11 gas offered to a block of 10: the builder has a receipt for it, the validator has none. */
  lemma OverLimitDisagrees()
    ensures var e, t := SampleEnv(), Telegram(LegacyTx, 0, 1, 11, Some(2), 0, [], 1, 0, 0, 0, 0);
            var s := TState(EMPTY, Ctx(0, 0), [], 0, 0);
            var (s', executed) := Build(e, 10, s, [t]);
            Process(e, 10, s, AllOnWire(executed)) != Some(s')
  {
    hide Build, Process;
    var e, t := SampleEnv(), Telegram(LegacyTx, 0, 1, 11, Some(2), 0, [], 1, 0, 0, 0, 0);
    var s := TState(EMPTY, Ctx(0, 0), [], 0, 0);
    assert LeavesReceipt(e, 10, t) && Admitted(e, t) && t in [t];
    BuilderAgreesIff(e, 10, s, [t]);
  }

  // ---------- receipts ----------

  function GasSum(rs: seq<Receipt>): nat {
    if rs == [] then 0 else GasSum(rs[..|rs| - 1]) + rs[|rs| - 1].gasUsed
  }

  lemma GasSumAppend(rs: seq<Receipt>, r: Receipt)
    ensures GasSum(rs + [r]) == GasSum(rs) + r.gasUsed
  {
    assert (rs + [r])[..|rs|] == rs;
  }

  /** The hash of a telegram once it names its sender. */
  function HashOf(e: Env, t: Telegram): Hash {
    e.hash(if Recover(e, t).Some? then t.(from := Recover(e, t).value) else t)
  }

  /** One more receipt for a telegram, with the running total of gas unless the telegram was over the limit. */
  ghost predicate OneReceipt(e: Env, gasLimit: nat, s: TState, s': TState, t: Telegram) {
    && |s'.receipts| == |s.receipts| + 1 && s'.receipts[..|s.receipts|] == s.receipts
    && var r := s'.receipts[|s.receipts|];
    && r.hash == HashOf(e, t) && s'.totalGas == (s.totalGas + r.gasUsed) % U64
    && r.cumulativeGasUsed == if Exceeds(t, gasLimit) then 0 else s'.totalGas
  }

  lemma WriteOneReceipt(e: Env, gasLimit: nat, s: TState, t: Telegram)
    requires s.totalGas < U64
    ensures !Exceeds(t, gasLimit) && Write(e, s, t).1 == None ==> OneReceipt(e, gasLimit, s, Write(e, s, t).0, t)
    ensures Exceeds(t, gasLimit) && WriteFailedReceipt(e, s, t).1 == None ==> OneReceipt(e, gasLimit, s, WriteFailedReceipt(e, s, t).0, t)
  {
    hide CheckAndPay, Execute;
  }

  /** One receipt for each telegram, in order, with the gas used up to it, modulo 2^64. */
  ghost predicate Accumulated(e: Env, gasLimit: nat, ts: seq<Telegram>, rs: seq<Receipt>) {
    && |rs| == |ts|
    && forall i | 0 <= i < |ts| ::
         && rs[i].hash == HashOf(e, ts[i])
         && rs[i].cumulativeGasUsed == if Exceeds(ts[i], gasLimit) then 0 else GasSum(rs[..i + 1]) % U64
  }

  lemma AccumulateOne(e: Env, gasLimit: nat, ts: seq<Telegram>, t: Telegram, s: TState, s': TState)
    requires Accumulated(e, gasLimit, ts, s.receipts) && s.totalGas == GasSum(s.receipts) % U64
    requires OneReceipt(e, gasLimit, s, s', t)
    ensures Accumulated(e, gasLimit, ts + [t], s'.receipts) && s'.totalGas == GasSum(s'.receipts) % U64
  {
    hide HashOf, Exceeds, GasSum;
    var n, rs := |ts|, s'.receipts;
    assert rs == s.receipts + [rs[n]] && rs[..n + 1] == rs;
    GasSumAppend(s.receipts, rs[n]);
    WrapSum(GasSum(s.receipts), rs[n].gasUsed);
    forall i | 0 <= i < n ensures rs[i] == s.receipts[i] && rs[..i + 1] == s.receipts[..i + 1] {
    }
  }

  lemma ProcessLast(e: Env, gasLimit: nat, s: TState, ts: seq<Telegram>, t: Telegram)
    requires Process(e, gasLimit, s, ts + [t]).Some? && s.totalGas < U64
    ensures Process(e, gasLimit, s, ts).Some?
    ensures var before := Process(e, gasLimit, s, ts).value;
            before.totalGas < U64 ==> OneReceipt(e, gasLimit, before, Process(e, gasLimit, s, ts + [t]).value, t)
  {
    hide Write, WriteFailedReceipt, OneReceipt, Exceeds;
    assert (ts + [t])[..|ts + [t]| - 1] == ts;
    var before := Process(e, gasLimit, s, ts).value;
    if before.totalGas < U64 {
      WriteOneReceipt(e, gasLimit, before, t);
    }
  }

  /** The receipts of a block follow its telegrams, and each carries the gas used up to it. */
  lemma {:induction false} ReceiptsAccumulate(e: Env, gasLimit: nat, s: TState, ts: seq<Telegram>)
    requires s.receipts == [] && s.totalGas == 0 && Process(e, gasLimit, s, ts).Some?
    ensures var s' := Process(e, gasLimit, s, ts).value;
            Accumulated(e, gasLimit, ts, s'.receipts) && s'.totalGas == GasSum(s'.receipts) % U64
  {
    if ts != [] {
      hide Process, OneReceipt, Accumulated, GasSum;
      var front, t := ts[..|ts| - 1], ts[|ts| - 1];
      assert ts == front + [t];
      ProcessLast(e, gasLimit, s, front, t);
      ReceiptsAccumulate(e, gasLimit, s, front);
      AccumulateOne(e, gasLimit, front, t, Process(e, gasLimit, s, front).value, Process(e, gasLimit, s, ts).value);
    }
  }

  lemma WrapSum(x: nat, y: nat)
    ensures (x % U64 + y) % U64 == (x + y) % U64
  {
  }

  /** The block gas pool is never charged, so the builder never stops on it. */
  lemma NeverStops(e: Env, gasLimit: nat, s: TState, t: Telegram)
    ensures BuildStep(e, gasLimit, s, t).1 != Stop
  {
    hide Apply;
  }

  lemma {:induction false} ProcessFails(e: Env, gasLimit: nat, s: TState, ts: seq<Telegram>, i: nat)
    requires i <= |ts| && Process(e, gasLimit, s, ts[..i]) == None
    ensures Process(e, gasLimit, s, ts) == None
    decreases |ts|
  {
    if i < |ts| {
      hide Write, WriteFailedReceipt;
      var front := ts[..|ts| - 1];
      assert front[..i] == ts[..i];
      ProcessFails(e, gasLimit, s, front, i);
    } else {
      assert ts[..i] == ts;
    }
  }
}
