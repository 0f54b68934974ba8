/**
 The refund counter over whole runs: within one telegram it never runs below
 zero; across the telegrams of a block it can.
 */
module RefundRuns {
  import opened Common
  import opened State
  import opened StorageGas
  import opened StateRuns

  /**
   What the interpreter and the executor do while a telegram runs. Raw storage
   writes belong to genesis, cleaning to the end of the telegram, and
   subtracting a refund happens inside storage writes only.
   */
  predicate InTelegram(e: Event) {
    e.Do? ==> !e.op.OpSetState? && !e.op.OpSubRefund? && !e.op.OpClean?
  }

  ghost predicate AllInTelegram(es: seq<Event>) {
    forall e | e in es :: InTelegram(e)
  }

  /** An object with the storage of the one it replaces changes no read. */
  lemma ReadsKept(w: World, o: Overlay, a: Address, obj: StateObject, s: Slot)
    requires !obj.deleted && obj.dirty == Fetch(w, o, a).dirty && obj.account.root == Fetch(w, o, a).account.root
    ensures Current(w, Insert(o, a, obj), s) == Current(w, o, s) && Original(w, Insert(o, a, obj), s) == Original(w, o, s)
  {
  }

  /** An object without storage has only zeros. */
  lemma ReadsFresh(w: World, o: Overlay, a: Address, obj: StateObject, s: Slot)
    requires obj.dirty == map[] && obj.account.root == map[]
    ensures Original(w, Insert(o, a, obj), s) == if s.a == a then 0 else Original(w, o, s)
    ensures s.a != a ==> Current(w, Insert(o, a, obj), s) == Current(w, o, s)
  {
  }

  lemma ReadsSame(w: World, o: Overlay, o': Overlay, s: Slot)
    requires o.objects == o'.objects
    ensures Current(w, o', s) == Current(w, o, s) && Original(w, o', s) == Original(w, o, s)
  {
  }

  /** Operations other than storage writes empty no slot. */
  lemma OtherOpReads(w: World, o: Overlay, op: Op, s: Slot)
    requires InTelegram(Do(op)) && !op.OpSetStorage?
    ensures IsZeroed(w, Step(w, o, op), s) ==> IsZeroed(w, o, s)
  {
    hide Current, Original;
    var o' := Step(w, o, op);
    if o'.objects == o.objects {
      ReadsSame(w, o, o', s);
    } else {
      var obj := o'.objects[op.a];
      assert o' == Insert(o, op.a, obj);
      if op.OpCreate? || (op.OpReward? && Fetch(w, o, op.a).suicide) {
        ReadsFresh(w, o, op.a, obj, s);
      } else {
        ReadsKept(w, o, op.a, obj, s);
      }
    }
  }

  lemma OtherOpKeepsFloor(w: World, o: Overlay, op: Op)
    requires InTelegram(Do(op)) && !op.OpSetStorage? && Floor(w, o)
    ensures Floor(w, Step(w, o, op))
  {
    hide IsZeroed, Zeroed;
    var o' := Step(w, o, op);
    ZeroedAre(w, o);
    ZeroedAre(w, o');
    forall s | s in Zeroed(w, o') ensures s in Zeroed(w, o) {
      OtherOpReads(w, o, op, s);
    }
    SubsetSize(Zeroed(w, o'), Zeroed(w, o));
    assert RefundSum(o') >= RefundSum(o);
  }

  ghost predicate MachineFloor(w: World, m: Machine) {
    Floor(w, m.current) && forall i | 0 <= i < |m.snapshots| :: Floor(w, m.snapshots[i])
  }

  lemma {:induction false} RunKeepsFloor(w: World, m: Machine, es: seq<Event>)
    requires MachineFloor(w, m) && AllInTelegram(es)
    ensures MachineFloor(w, RunAll(w, m, es))
  {
    if es != [] {
      var front, e := es[..|es| - 1], es[|es| - 1];
      RunKeepsFloor(w, m, front);
      var n := RunAll(w, m, front);
      if e.Do? {
        if e.op.OpSetStorage? {
          DoKeepsFloor(w, n.current, Call(Slot(e.op.a, e.op.k), e.op.v), e.op.metering);
        } else {
          OtherOpKeepsFloor(w, n.current, e.op);
        }
      }
    }
  }

  /** No run of a telegram that starts in `o` can make the counter underflow. */
  ghost predicate RefundSafe(w: World, o: Overlay, m: Metering) {
    forall es: seq<Event>, c: Call | AllInTelegram(es) :: !Underflows(w, RunAll(w, Machine(o, []), es).current, c, m)
  }

  /**
   A telegram starts with an empty counter. It is safe exactly when no earlier
   telegram of the block has left a slot emptied that held something in the
   parent state.
   */
  lemma RefundSafeIff(w: World, o: Overlay, m: Metering)
    requires m != Legacy && o.refund == None
    ensures RefundSafe(w, o, m) <==> Zeroed(w, o) == {}
  {
    ZeroedAre(w, o);
    if Zeroed(w, o) == {} {
      forall es: seq<Event>, c: Call | AllInTelegram(es)
        ensures !Underflows(w, RunAll(w, Machine(o, []), es).current, c, m)
      {
        RunKeepsFloor(w, Machine(o, []), es);
        FloorPreventsUnderflow(w, RunAll(w, Machine(o, []), es).current, c, m);
      }
    } else {
      var s :| s in Zeroed(w, o);
      assert RunAll(w, Machine(o, []), []) == Machine(o, []);
      assert Underflows(w, RunAll(w, Machine(o, []), []).current, Call(s, 1), m);
    }
  }

  /** In particular the first telegram of a block is always safe. */
  lemma FirstTelegramSafe(w: World, m: Metering)
    requires m != Legacy
    ensures RefundSafe(w, EMPTY, m)
  {
    assert Zeroed(w, EMPTY) == {};
    RefundSafeIff(w, EMPTY, m);
  }

  /**
   The second need not be: one telegram empties a slot, the next one writes to
   it again, and the counter wraps around.
   */
  lemma SecondTelegramWraps()
    ensures var w: World := map[1 := Account(1, 1, map[0 := 5], [])];
            var first := CleanDelete(SetStorage(w, EMPTY, 1, 0, 0, Istanbul).0, true);
            GetRefund(SetStorage(w, first, 1, 0, 7, Istanbul).0) == U64 - 15000
  {
    var w: World := map[1 := Account(1, 1, map[0 := 5], [])];
    var o := SetStorage(w, EMPTY, 1, 0, 0, Istanbul).0;
    assert o.objects[1] == StateObject(w[1], false, false, map[0 := 0]);
    var first := CleanDelete(o, true);
    assert first.objects[1] == o.objects[1] && first.refund == None;
    assert RefundSum(SetStorage(w, first, 1, 0, 7, Istanbul).0) == -15000;
  }
}
