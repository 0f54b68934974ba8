/**
 Whole runs of overlay operations: they do to the simple state exactly what the
 operations mean, and a revert undoes whatever happened since its snapshot.
 */
module StateRuns {
  import opened Common
  import opened State
  import opened StorageGas

  datatype Op =
    | OpAddBalance(a: Address, amount: nat)
    | OpSubBalance(a: Address, amount: nat)
    | OpSetBalance(a: Address, amount: nat)
    | OpReward(a: Address, amount: nat)
    | OpIncrNonce(a: Address)
    | OpSetNonce(a: Address, nonce: nat)
    | OpSetCode(a: Address, code: Code)
    | OpSetState(a: Address, k: Key, v: Val)
    | OpSetStorage(a: Address, k: Key, v: Val, metering: Metering)
    | OpTouch(a: Address)
    | OpSuicide(a: Address)
    | OpCreate(a: Address)
    | OpAddRefund(gas: nat)
    | OpSubRefund(gas: nat)
    | OpEmitLog(log: Log)
    | OpTakeLogs
    | OpClean(deleteEmpty: bool)

  function Step(w: World, o: Overlay, op: Op): Overlay {
    match op
    case OpAddBalance(a, n) => AddBalance(w, o, a, n)
    case OpSubBalance(a, n) => var r := SubBalance(w, o, a, n); if r.Some? then r.value else o
    case OpSetBalance(a, n) => SetBalance(w, o, a, n)
    case OpReward(a, n) => AddSealingReward(w, o, a, n)
    case OpIncrNonce(a) => IncrNonce(w, o, a)
    case OpSetNonce(a, n) => SetNonce(w, o, a, n)
    case OpSetCode(a, c) => SetCode(w, o, a, c)
    case OpSetState(a, k, v) => SetState(w, o, a, k, v)
    case OpSetStorage(a, k, v, m) => SetStorage(w, o, a, k, v, m).0
    case OpTouch(a) => TouchAccount(w, o, a)
    case OpSuicide(a) => Suicide(w, o, a)
    case OpCreate(a) => CreateAccount(w, o, a)
    case OpAddRefund(g) => AddRefund(o, g)
    case OpSubRefund(g) => SubRefund(o, g)
    case OpEmitLog(l) => EmitLog(o, l)
    case OpTakeLogs => TakeLogs(o).0
    case OpClean(b) => CleanDelete(o, b)
  }

  // ---------- the same operations without an overlay ----------

  datatype Direct = Direct(accounts: map<Address, Plain>, logs: Option<seq<Log>>, refund: Option<int>)

  function Find(d: Direct, a: Address): Option<Plain> {
    if a in d.accounts then Some(d.accounts[a]) else None
  }

  const NOBODY := Plain(0, 0, [], map[], map[], false, false)

  function At(d: Direct, a: Address): Plain {
    if a in d.accounts then d.accounts[a] else NOBODY
  }

  function Put(d: Direct, a: Address, p: Plain): Direct {
    d.(accounts := d.accounts[a := p.(touched := true)])
  }

  function Bump(d: Direct, delta: int): Direct {
    d.(refund := Some((if d.refund.Some? then d.refund.value else 0) + delta))
  }

  function DirectSetStorage(d: Direct, a: Address, k: Key, v: Val, m: Metering): Direct {
    var p := At(d, a);
    var current, original := LoadAt(p.storage, k), LoadAt(p.committed, k);
    if current == v then d
    else
      var d' := Put(d, a, p.(storage := StoreAt(p.storage, k, v)));
      if RefundTouched(original, current, v, m) then Bump(d', RefundDelta(original, current, v, m)) else d'
  }

  function DirectStep(d: Direct, op: Op): Direct {
    match op
    case OpAddBalance(a, n) => Put(d, a, At(d, a).(balance := At(d, a).balance + n))
    case OpSubBalance(a, n) =>
      if n == 0 || At(d, a).balance < n then d else Put(d, a, At(d, a).(balance := At(d, a).balance - n))
    case OpSetBalance(a, n) => Put(d, a, At(d, a).(balance := n))
    case OpReward(a, n) =>
      Put(d, a, if At(d, a).suicide then NOBODY.(balance := n) else At(d, a).(balance := At(d, a).balance + n))
    case OpIncrNonce(a) => Put(d, a, At(d, a).(nonce := (At(d, a).nonce + 1) % U64))
    case OpSetNonce(a, n) => Put(d, a, At(d, a).(nonce := n))
    case OpSetCode(a, c) => Put(d, a, At(d, a).(code := c))
    case OpSetState(a, k, v) => Put(d, a, At(d, a).(storage := StoreAt(At(d, a).storage, k, v)))
    case OpSetStorage(a, k, v, m) => DirectSetStorage(d, a, k, v, m)
    case OpTouch(a) => Put(d, a, At(d, a))
    case OpSuicide(a) => if a in d.accounts then Put(d, a, At(d, a).(suicide := true, balance := 0)) else d
    case OpCreate(a) => Put(d, a, NOBODY.(balance := At(d, a).balance))
    case OpAddRefund(g) => Bump(d, g)
    case OpSubRefund(g) => Bump(d, 0 - g)
    case OpEmitLog(l) => d.(logs := Some((if d.logs.Some? then d.logs.value else []) + [l]))
    case OpTakeLogs => d.(logs := None)
    case OpClean(b) => d.(accounts := map a | a in d.accounts && !DirectDoomed(d.accounts[a], b) :: d.accounts[a], refund := None)
  }

  predicate DirectDoomed(p: Plain, deleteEmpty: bool) {
    p.touched && (p.suicide || (deleteEmpty && p.nonce == 0 && p.balance == 0 && p.code == []))
  }

  // ---------- simulation ----------

  /** The overlay over `w` stands for the simple state `d`. */
  ghost predicate Represents(w: World, o: Overlay, d: Direct) {
    && (forall a: Address :: PlainAt(w, o, a) == Find(d, a))
    && o.logs == d.logs && o.refund == d.refund
  }

  lemma FetchIsAt(w: World, o: Overlay, d: Direct, a: Address)
    requires Represents(w, o, d)
    ensures ToPlain(Fetch(w, o, a), true) == At(d, a).(touched := true)
  {
    assert PlainAt(w, o, a) == Find(d, a);
    NewIsNobody();
  }

  lemma NewIsNobody()
    ensures ToPlain(NewObject(), false) == NOBODY
  {
    FlushedNothing(NewObject().account.root);
    var p := ToPlain(NewObject(), false);
    assert p.storage == NOBODY.storage && p.committed == NOBODY.committed;
  }

  /** Inserting an object is putting its simple form. */
  lemma InsertIsPut(w: World, o: Overlay, d: Direct, a: Address, obj: StateObject)
    requires Represents(w, o, d) && !obj.deleted
    ensures Represents(w, Insert(o, a, obj), Put(d, a, ToPlain(obj, true)))
  {
    forall x: Address ensures PlainAt(w, Insert(o, a, obj), x) == Find(Put(d, a, ToPlain(obj, true)), x) {
      assert PlainAt(w, o, x) == Find(d, x);
    }
  }

  lemma RefundIsBump(w: World, o: Overlay, d: Direct, delta: int)
    requires Represents(w, o, d)
    ensures Represents(w, o.(refund := Some(RefundSum(o) + delta)), Bump(d, delta))
  {
    forall x: Address ensures PlainAt(w, o.(refund := Some(RefundSum(o) + delta)), x) == Find(Bump(d, delta), x) {
      assert PlainAt(w, o, x) == Find(d, x);
    }
  }

  lemma SetStateSimulates(w: World, o: Overlay, d: Direct, a: Address, k: Key, v: Val)
    requires Represents(w, o, d)
    ensures Represents(w, SetState(w, o, a, k, v), Put(d, a, At(d, a).(storage := StoreAt(At(d, a).storage, k, v))))
  {
    FetchIsAt(w, o, d, a);
    var obj := Fetch(w, o, a);
    FlushedWrite(obj.account.root, obj.dirty, k, v);
    InsertIsPut(w, o, d, a, obj.(dirty := obj.dirty[k := v]));
  }

  lemma StorageSimulates(w: World, o: Overlay, d: Direct, a: Address, k: Key, v: Val, m: Metering)
    requires Represents(w, o, d)
    ensures Represents(w, SetStorage(w, o, a, k, v, m).0, DirectSetStorage(d, a, k, v, m))
  {
    hide SetStorage, SetState, RefundDelta, RefundTouched, StoreAt, Flushed, GetState, GetCommittedState;
    ReadsAgree(w, o, a, k);
    assert PlainAt(w, o, a) == Find(d, a);
    var current, original := LoadAt(At(d, a).storage, k), LoadAt(At(d, a).committed, k);
    assert GetState(w, o, a, k) == current && GetCommittedState(w, o, a, k) == original;
    SetStorageRefund(w, o, a, k, v, m);
    if current != v {
      SetStateSimulates(w, o, d, a, k, v);
      if RefundTouched(original, current, v, m) {
        RefundIsBump(w, SetState(w, o, a, k, v), Put(d, a, At(d, a).(storage := StoreAt(At(d, a).storage, k, v))),
                     RefundDelta(original, current, v, m));
      }
    }
  }

  lemma CleanSimulates(w: World, o: Overlay, d: Direct, b: bool)
    requires Represents(w, o, d)
    ensures Represents(w, CleanDelete(o, b), DirectStep(d, OpClean(b)))
  {
    forall x: Address ensures PlainAt(w, CleanDelete(o, b), x) == Find(DirectStep(d, OpClean(b)), x) {
      assert PlainAt(w, o, x) == Find(d, x);
    }
  }

  /** Rewriting one account record is rewriting the simple account. */
  lemma WithAccountSimulates(w: World, o: Overlay, d: Direct, a: Address, acc: Account)
    requires Represents(w, o, d) && acc.root == Fetch(w, o, a).account.root
    ensures Represents(w, WithAccount(w, o, a, acc),
                       Put(d, a, At(d, a).(nonce := acc.nonce, balance := acc.balance, code := acc.code)))
  {
    FetchIsAt(w, o, d, a);
    InsertIsPut(w, o, d, a, Fetch(w, o, a).(account := acc));
  }

  lemma AccountOpSimulates(w: World, o: Overlay, d: Direct, op: Op)
    requires Represents(w, o, d)
    requires op.OpAddBalance? || op.OpSubBalance? || op.OpSetBalance? || op.OpIncrNonce? || op.OpSetNonce? || op.OpSetCode?
    ensures Represents(w, Step(w, o, op), DirectStep(d, op))
  {
    hide Flushed, StoreAt, LoadAt;
    var a := op.a;
    FetchIsAt(w, o, d, a);
    assert PlainAt(w, o, a) == Find(d, a);
    var after := Step(w, o, op);
    if op.OpSubBalance? && (op.amount == 0 || At(d, a).balance < op.amount) {
      assert after == o;
    } else {
      WithAccountSimulates(w, o, d, a, after.objects[a].account);
    }
  }

  /** Operations that replace or mark a whole object. */
  lemma ObjectOpSimulates(w: World, o: Overlay, d: Direct, op: Op)
    requires Represents(w, o, d)
    requires op.OpReward? || op.OpTouch? || op.OpSuicide? || op.OpCreate?
    ensures Represents(w, Step(w, o, op), DirectStep(d, op))
  {
    hide Flushed, StoreAt, LoadAt;
    var a := op.a;
    FetchIsAt(w, o, d, a);
    assert PlainAt(w, o, a) == Find(d, a);
    NewIsNobody();
    var after := Step(w, o, op);
    if a in after.objects && !after.objects[a].deleted {
      InsertIsPut(w, o, d, a, after.objects[a]);
    }
  }

  lemma StepSimulates(w: World, o: Overlay, d: Direct, op: Op)
    requires Represents(w, o, d)
    ensures Represents(w, Step(w, o, op), DirectStep(d, op))
  {
    match op
    case OpSetStorage(a, k, v, m) => StorageSimulates(w, o, d, a, k, v, m);
    case OpSetState(a, k, v) => SetStateSimulates(w, o, d, a, k, v);
    case OpClean(b) => CleanSimulates(w, o, d, b);
    case OpAddRefund(g) => RefundIsBump(w, o, d, g);
    case OpSubRefund(g) => RefundIsBump(w, o, d, 0 - g);
    case OpEmitLog(_) => assert forall x: Address :: PlainAt(w, Step(w, o, op), x) == PlainAt(w, o, x);
    case OpTakeLogs => assert forall x: Address :: PlainAt(w, Step(w, o, op), x) == PlainAt(w, o, x);
    case OpReward(_, _) => ObjectOpSimulates(w, o, d, op);
    case OpTouch(_) => ObjectOpSimulates(w, o, d, op);
    case OpSuicide(_) => ObjectOpSimulates(w, o, d, op);
    case OpCreate(_) => ObjectOpSimulates(w, o, d, op);
    case _ => AccountOpSimulates(w, o, d, op);
  }

  // ---------- runs with snapshots ----------

  datatype Event = Do(op: Op) | TakeSnapshot | Revert(id: nat)

  /** The overlay and the snapshots taken of it; a revert keeps the list. */
  datatype Machine = Machine(current: Overlay, snapshots: seq<Overlay>)

  datatype DirectMachine = DirectMachine(current: Direct, snapshots: seq<Direct>)

  function MachineStep(w: World, m: Machine, e: Event): Machine {
    match e
    case Do(op) => m.(current := Step(w, m.current, op))
    case TakeSnapshot => m.(snapshots := m.snapshots + [m.current])
    case Revert(id) => if id < |m.snapshots| then m.(current := m.snapshots[id]) else m
  }

  function DirectMachineStep(m: DirectMachine, e: Event): DirectMachine {
    match e
    case Do(op) => m.(current := DirectStep(m.current, op))
    case TakeSnapshot => m.(snapshots := m.snapshots + [m.current])
    case Revert(id) => if id < |m.snapshots| then m.(current := m.snapshots[id]) else m
  }

  function RunAll(w: World, m: Machine, es: seq<Event>): Machine {
    if es == [] then m else MachineStep(w, RunAll(w, m, es[..|es| - 1]), es[|es| - 1])
  }

  function DirectRunAll(m: DirectMachine, es: seq<Event>): DirectMachine {
    if es == [] then m else DirectMachineStep(DirectRunAll(m, es[..|es| - 1]), es[|es| - 1])
  }

  ghost predicate MachinesMatch(w: World, m: Machine, d: DirectMachine) {
    && Represents(w, m.current, d.current)
    && |m.snapshots| == |d.snapshots|
    && forall i | 0 <= i < |m.snapshots| :: Represents(w, m.snapshots[i], d.snapshots[i])
  }

  /** Every run of operations, snapshots and reverts does to the simple state what it says. */
  lemma {:induction false} RunSimulates(w: World, m: Machine, d: DirectMachine, es: seq<Event>)
    requires MachinesMatch(w, m, d)
    ensures MachinesMatch(w, RunAll(w, m, es), DirectRunAll(d, es))
  {
    if es != [] {
      var front, e := es[..|es| - 1], es[|es| - 1];
      RunSimulates(w, m, d, front);
      if e.Do? {
        StepSimulates(w, RunAll(w, m, front).current, DirectRunAll(d, front).current, e.op);
      }
    }
  }

  /** A committed world as a simple state. */
  function Open(w: World): Direct {
    Direct(map a | a in w :: ToPlain(StateObject(w[a], false, false, map[]), false), None, None)
  }

  lemma OpenRepresents(w: World)
    ensures Represents(w, EMPTY, Open(w))
  {
  }

  /**
   Refinement: run any operations, snapshots and reverts from a fresh overlay,
   commit, and look at the new world. At every address it has what the same
   operations done directly on the old world leave there.
   */
  lemma RunAndCommit(w: World, es: seq<Event>, deleteEmpty: bool, objs: seq<Object>, a: Address)
    requires IsCommitList(CleanDelete(RunAll(w, Machine(EMPTY, []), es).current, deleteEmpty), objs)
    ensures var d := DirectRunAll(DirectMachine(Open(w), []), es).current;
            Find(Open(ApplyAll(w, objs)), a) == Rebase(Find(DirectStep(d, OpClean(deleteEmpty)), a))
  {
    OpenRepresents(w);
    RunSimulates(w, Machine(EMPTY, []), DirectMachine(Open(w), []), es);
    var o := RunAll(w, Machine(EMPTY, []), es).current;
    var d := DirectRunAll(DirectMachine(Open(w), []), es).current;
    CleanSimulates(w, o, d, deleteEmpty);
    CommitRefines(w, o, deleteEmpty, objs, a);
    OpenRepresents(ApplyAll(w, objs));
    assert PlainAt(ApplyAll(w, objs), EMPTY, a) == Find(Open(ApplyAll(w, objs)), a);
    assert PlainAt(w, CleanDelete(o, deleteEmpty), a) == Find(DirectStep(d, OpClean(deleteEmpty)), a);
  }
}
