/**
 Net gas metering of storage writes (EIP-2200, and EIP-1283 before it) and the
 refund counter.
 */
module StorageGas {
  import opened Common
  import opened State

  /** Istanbul meters by EIP-2200, Constantinople alone by EIP-1283, all else the old way. */
  datatype Metering = Istanbul | Constantinople | Legacy

  function MeteringOf(istanbul: bool, petersburg: bool, constantinople: bool): Metering {
    if istanbul then Istanbul
    else if petersburg || !constantinople then Legacy
    else Constantinople
  }

  datatype Status = Unchanged | Modified | ModifiedAgain | Added | Deleted

  function SetStorage(w: World, o: Overlay, a: Address, k: Key, v: Val, m: Metering): (Overlay, Status) {
    var current := GetState(w, o, a, k);
    if current == v then (o, Unchanged)
    else
      var original := GetCommittedState(w, o, a, k);
      var o1 := SetState(w, o, a, k, v);
      if m == Legacy then
        if current == 0 then (o1, Added)
        else if v == 0 then (AddRefund(o1, 15000), Deleted)
        else (o1, Modified)
      else if original == current then
        if original == 0 then (o1, Added)
        else if v == 0 then (AddRefund(o1, 15000), Deleted)
        else (o1, Modified)
      else
        var o2 :=
          if original != 0 then
            if current == 0 then SubRefund(o1, 15000)
            else if v == 0 then AddRefund(o1, 15000)
            else o1
          else o1;
        var o3 :=
          if original == v then
            if original == 0 then AddRefund(o2, if m == Istanbul then 19200 else 19800)
            else AddRefund(o2, if m == Istanbul then 4200 else 4800)
          else o2;
        (o3, ModifiedAgain)
  }

  /** Gas the interpreter charges for a status. */
  function Cost(s: Status, m: Metering): nat {
    match s
    case Unchanged => if m == Istanbul then 800 else if m == Legacy then 5000 else 200
    case Modified => 5000
    case ModifiedAgain => if m == Istanbul then 800 else if m == Legacy then 5000 else 200
    case Added => 20000
    case Deleted => 5000
  }

  function Base(m: Metering): nat {
    if m == Istanbul then 800 else if m == Legacy then 5000 else 200
  }

  /** The change of the refund counter that a write asks for, as an integer. */
  function RefundDelta(original: Val, current: Val, v: Val, m: Metering): int {
    if current == v then 0
    else if m == Legacy || original == current then
      if current != 0 && v == 0 then 15000 else 0
    else
      (if original != 0 && current == 0 then -15000 else if original != 0 && v == 0 then 15000 else 0)
      + (if original != v then 0 else if original == 0 then Base2(m) else Base1(m))
  }

  /** Does the write go through the refund counter at all? */
  predicate RefundTouched(original: Val, current: Val, v: Val, m: Metering) {
    && current != v
    && (if m == Legacy || original == current then current != 0 && v == 0
        else (original != 0 && (current == 0 || v == 0)) || original == v)
  }

  function Base1(m: Metering): nat {
    5000 - Base(m)
  }

  function Base2(m: Metering): nat {
    20000 - Base(m)
  }

  /** What a write does to the refund sum. */
  lemma SetStorageRefund(w: World, o: Overlay, a: Address, k: Key, v: Val, m: Metering)
    ensures var original, current := GetCommittedState(w, o, a, k), GetState(w, o, a, k);
            && RefundSum(SetStorage(w, o, a, k, v, m).0) == RefundSum(o) + RefundDelta(original, current, v, m)
            && SetStorage(w, o, a, k, v, m).0 ==
               if current == v then o
               else if RefundTouched(original, current, v, m)
               then SetState(w, o, a, k, v).(refund := Some(RefundSum(o) + RefundDelta(original, current, v, m)))
               else SetState(w, o, a, k, v)
  {
  }

  // ---------- gas does not depend on the path ----------

  datatype Slot = Slot(a: Address, k: Key)

  datatype Call = Call(slot: Slot, v: Val)

  /** What a slot's value costs to have, relative to its original value; the old metering does not look at that. */
  function Phi(original: Val, value: Val, m: Metering): int {
    if m == Legacy then (if value != 0 then 15000 else 0)
    else if value == original then 0
    else if original == 0 then Base2(m)
    else Base1(m) - (if value == 0 then 15000 else 0)
  }

  function Current(w: World, o: Overlay, s: Slot): Val {
    GetState(w, o, s.a, s.k)
  }

  function Original(w: World, o: Overlay, s: Slot): Val {
    GetCommittedState(w, o, s.a, s.k)
  }

  function Do(w: World, o: Overlay, c: Call, m: Metering): Overlay {
    SetStorage(w, o, c.slot.a, c.slot.k, c.v, m).0
  }

  /** Gas charged for one call less the refund it earns. */
  function NetGas(w: World, o: Overlay, c: Call, m: Metering): int {
    Cost(SetStorage(w, o, c.slot.a, c.slot.k, c.v, m).1, m) - (RefundSum(Do(w, o, c, m)) - RefundSum(o))
  }

  function DoAll(w: World, o: Overlay, calls: seq<Call>, m: Metering): Overlay
    decreases |calls|
  {
    if calls == [] then o else DoAll(w, Do(w, o, calls[0], m), calls[1..], m)
  }

  /** Net gas that the calls on slot `s` cost, in a sequence that may touch other slots too. */
  function NetGasOf(w: World, o: Overlay, calls: seq<Call>, m: Metering, s: Slot): int
    decreases |calls|
  {
    if calls == [] then 0
    else (if calls[0].slot == s then NetGas(w, o, calls[0], m) else 0) + NetGasOf(w, Do(w, o, calls[0], m), calls[1..], m, s)
  }

  function CallsOn(calls: seq<Call>, s: Slot): nat {
    if calls == [] then 0 else (if calls[0].slot == s then 1 else 0) + CallsOn(calls[1..], s)
  }

  /** A call sets its own slot, leaves the others alone and keeps every original value. */
  lemma DoReads(w: World, o: Overlay, c: Call, m: Metering, s: Slot)
    ensures Current(w, Do(w, o, c, m), s) == if s == c.slot then c.v else Current(w, o, s)
    ensures Original(w, Do(w, o, c, m), s) == Original(w, o, s)
  {
    SetStorageRefund(w, o, c.slot.a, c.slot.k, c.v, m);
    assert GetState(w, SetState(w, o, c.slot.a, c.slot.k, c.v), s.a, s.k) == if s == c.slot then c.v else Current(w, o, s);
  }

  lemma OneCall(w: World, o: Overlay, c: Call, m: Metering)
    ensures NetGas(w, o, c, m)
            == Base(m) + Phi(Original(w, o, c.slot), c.v, m) - Phi(Original(w, o, c.slot), Current(w, o, c.slot), m)
  {
    SetStorageRefund(w, o, c.slot.a, c.slot.k, c.v, m);
  }

  /**
   Path independence: whatever values a slot passes through, and whatever else
   is written in between, its writes cost the base price each and the
   difference between its final and initial value.
   */
  lemma {:induction false} PathIndependent(w: World, o: Overlay, calls: seq<Call>, m: Metering, s: Slot)
    ensures NetGasOf(w, o, calls, m, s)
            == CallsOn(calls, s) * Base(m)
               + Phi(Original(w, o, s), Current(w, DoAll(w, o, calls, m), s), m)
               - Phi(Original(w, o, s), Current(w, o, s), m)
    decreases |calls|
  {
    if calls != [] {
      PathIndependent(w, Do(w, o, calls[0], m), calls[1..], m, s);
      DoReads(w, o, calls[0], m, s);
      if calls[0].slot == s {
        OneCall(w, o, calls[0], m);
      }
    }
  }

  /** So under every combination of forks; which one is in force only sets the base price and the potential. */
  lemma ForksPathIndependent(w: World, o: Overlay, calls: seq<Call>, istanbul: bool, petersburg: bool, constantinople: bool, s: Slot)
    ensures var m := MeteringOf(istanbul, petersburg, constantinople);
            var base := if istanbul then 800 else if constantinople && !petersburg then 200 else 5000;
            NetGasOf(w, o, calls, m, s)
            == CallsOn(calls, s) * base
               + Phi(Original(w, o, s), Current(w, DoAll(w, o, calls, m), s), m)
               - Phi(Original(w, o, s), Current(w, o, s), m)
  {
    hide NetGasOf, CallsOn, Phi, Original, Current, DoAll;
    PathIndependent(w, o, calls, MeteringOf(istanbul, petersburg, constantinople), s);
  }

  // ---------- the refund counter does not run below zero ----------

  /** Slots that held something at the start of the block and are empty now. */
  ghost function Zeroed(w: World, o: Overlay): set<Slot> {
    set a, k | a in o.objects && k in o.objects[a].dirty && IsZeroed(w, o, Slot(a, k)) :: Slot(a, k)
  }

  predicate IsZeroed(w: World, o: Overlay, s: Slot) {
    Original(w, o, s) != 0 && Current(w, o, s) == 0
  }

  lemma ZeroedAre(w: World, o: Overlay)
    ensures forall s :: s in Zeroed(w, o) <==> IsZeroed(w, o, s)
  {
  }

  /** Every slot emptied so far has its refund in the counter. */
  ghost predicate Floor(w: World, o: Overlay) {
    RefundSum(o) >= 15000 * |Zeroed(w, o)|
  }

  /** The call subtracts more from the counter than is there. */
  predicate Underflows(w: World, o: Overlay, c: Call, m: Metering) {
    && m != Legacy && IsZeroed(w, o, c.slot) && c.v != 0
    && RefundSum(o) < 15000
  }

  lemma FloorPreventsUnderflow(w: World, o: Overlay, c: Call, m: Metering)
    requires Floor(w, o)
    ensures !Underflows(w, o, c, m)
  {
    ZeroedAre(w, o);
    if IsZeroed(w, o, c.slot) {
      assert {c.slot} <= Zeroed(w, o);
      SubsetSize({c.slot}, Zeroed(w, o));
    }
  }

  lemma ZeroedAfterDo(w: World, o: Overlay, c: Call, m: Metering)
    ensures Zeroed(w, Do(w, o, c, m))
            == if Original(w, o, c.slot) != 0 && c.v == 0 then Zeroed(w, o) + {c.slot} else Zeroed(w, o) - {c.slot}
  {
    var o' := Do(w, o, c, m);
    ZeroedAre(w, o);
    ZeroedAre(w, o');
    forall s ensures IsZeroed(w, o', s) <==> if s == c.slot then Original(w, o, s) != 0 && c.v == 0 else IsZeroed(w, o, s) {
      DoReads(w, o, c, m, s);
    }
  }

  lemma DoKeepsFloor(w: World, o: Overlay, c: Call, m: Metering)
    requires Floor(w, o)
    ensures Floor(w, Do(w, o, c, m))
  {
    ZeroedAre(w, o);
    ZeroedAfterDo(w, o, c, m);
    SetStorageRefund(w, o, c.slot.a, c.slot.k, c.v, m);
    var original, current := Original(w, o, c.slot), Current(w, o, c.slot);
    CountChange(Zeroed(w, o), c.slot, original != 0 && c.v == 0);
    DeltaCoversZeroing(original, current, c.v, m);
    assert RefundSum(Do(w, o, c, m)) == RefundSum(o) + RefundDelta(original, current, c.v, m);
    assert c.slot in Zeroed(w, o) <==> original != 0 && current == 0;
  }

  lemma CountChange(z: set<Slot>, x: Slot, stays: bool)
    ensures |if stays then z + {x} else z - {x}|
            == |z| + (if stays && x !in z then 1 else if !stays && x in z then -1 else 0)
  {
    if stays && x in z {
      assert z + {x} == z;
    }
    if !stays && x !in z {
      assert z - {x} == z;
    }
  }

  lemma DeltaCoversZeroing(original: Val, current: Val, v: Val, m: Metering)
    ensures RefundDelta(original, current, v, m)
            >= (if original != 0 && v == 0 && current != 0 then 15000
                else if original != 0 && v != 0 && current == 0 then -15000
                else 0)
  {
  }
}
