/**
 The overlay as the program keeps it: a tree of references to mutable objects,
 and log slices that share their arrays with the snapshots taken of them. An
 object is copied before it is changed, so no operation writes to an object
 that a snapshot refers to.
 */
module Txn {
  import opened Common
  import opened State
  import opened StorageGas

  class AccountRef {
    var nonce: nat
    var balance: nat
    var root: Storage
    var code: Code

    constructor (acc: Account)
      ensures Value() == acc
    {
      nonce, balance, root, code := acc.nonce, acc.balance, acc.root, acc.code;
    }

    function Value(): Account
      reads this
    {
      Account(nonce, balance, root, code)
    }
  }

  class ObjectRef {
    var account: AccountRef
    var suicide: bool
    var deleted: bool
    var dirty: map<Key, Val>

    constructor (acc: Account)
      ensures Value() == StateObject(acc, false, false, map[]) && fresh(account)
    {
      account := new AccountRef(acc);
      suicide, deleted, dirty := false, false, map[];
    }

    function Value(): StateObject
      reads this, account
    {
      StateObject(account.Value(), suicide, deleted, dirty)
    }

    /** A deep copy: the account record is copied too. */
    method Copy() returns (c: ObjectRef)
      ensures c.Value() == Value() && fresh(c) && fresh(c.account)
    {
      c := new ObjectRef(account.Value());
      c.suicide, c.deleted, c.dirty := suicide, deleted, dirty;
    }
  }

  type Objects = map<Address, ObjectRef>

  /** The first `len` entries of a backing array. */
  datatype Slice = Slice(arr: nat, len: nat)

  datatype Tree = Tree(objects: Objects, logs: Option<Slice>, refund: Option<int>)

  // ---------- what a tree means ----------

  /** The tree holds the objects `m`, given the value of every object ever put into a tree. */
  ghost predicate Holds(frozen: map<ObjectRef, StateObject>, t: Objects, m: map<Address, StateObject>) {
    t.Keys == m.Keys && forall a | a in t :: t[a] in frozen && frozen[t[a]] == m[a]
  }

  ghost predicate InRange(arrays: seq<seq<Log>>, s: Option<Slice>) {
    s.Some? ==> s.value.arr < |arrays| && s.value.len <= |arrays[s.value.arr]|
  }

  function Contents(arrays: seq<seq<Log>>, s: Option<Slice>): Option<seq<Log>>
    requires InRange(arrays, s)
  {
    if s.Some? then Some(arrays[s.value.arr][..s.value.len]) else None
  }

  /** A later slice of the same array is at least as long. */
  predicate Before(s: Option<Slice>, t: Option<Slice>) {
    s.Some? && t.Some? && s.value.arr == t.value.arr ==> s.value.len <= t.value.len
  }

  /** The snapshots on the stack still show the logs they were taken with. */
  ghost predicate LogsFine(arrays: seq<seq<Log>>, logs: Option<Slice>, trees: seq<Tree>, history: seq<Overlay>, live: seq<nat>) {
    && |history| == |trees|
    && InRange(arrays, logs)
    && (forall i | 0 <= i < |trees| :: InRange(arrays, trees[i].logs))
    && (forall p | 0 <= p < |live| :: live[p] < |trees|)
    && (forall p | 0 <= p < |live| ::
          Contents(arrays, trees[live[p]].logs) == history[live[p]].logs && Before(trees[live[p]].logs, logs))
    && (forall p, q | 0 <= p < q < |live| :: live[p] < live[q] && Before(trees[live[p]].logs, trees[live[q]].logs))
  }

  ghost predicate TreesHold(frozen: map<ObjectRef, StateObject>, trees: seq<Tree>, history: seq<Overlay>) {
    && |history| == |trees|
    && forall i | 0 <= i < |trees| ::
         Holds(frozen, trees[i].objects, history[i].objects) && trees[i].refund == history[i].refund
  }

  lemma TreeHolds(frozen: map<ObjectRef, StateObject>, trees: seq<Tree>, history: seq<Overlay>, i: nat)
    requires TreesHold(frozen, trees, history) && i < |trees|
    ensures |history| == |trees|
    ensures Holds(frozen, trees[i].objects, history[i].objects) && trees[i].refund == history[i].refund
  {
  }

  lemma FreezeKeeps(frozen: map<ObjectRef, StateObject>, r: ObjectRef, v: StateObject, trees: seq<Tree>, history: seq<Overlay>)
    requires r !in frozen && TreesHold(frozen, trees, history)
    ensures TreesHold(frozen[r := v], trees, history)
  {
    var frozen' := frozen[r := v];
    forall i | 0 <= i < |trees| ensures Holds(frozen', trees[i].objects, history[i].objects) {
      assert Holds(frozen, trees[i].objects, history[i].objects);
    }
  }

  lemma PutHolds(frozen: map<ObjectRef, StateObject>, t: Objects, m: map<Address, StateObject>, a: Address, r: ObjectRef, v: StateObject)
    requires r !in frozen && Holds(frozen, t, m)
    ensures Holds(frozen[r := v], t[a := r], m[a := v])
  {
  }

  /** The snapshots that stay on the stack when `id` is reverted to. */
  lemma RevertFine(arrays: seq<seq<Log>>, logs: Option<Slice>, trees: seq<Tree>, history: seq<Overlay>, live: seq<nat>, id: nat)
    returns (left: seq<nat>)
    requires LogsFine(arrays, logs, trees, history, live) && id < |trees|
    ensures |history| == |trees| && InRange(arrays, trees[id].logs) && LogsFine(arrays, trees[id].logs, trees, history, left)
    ensures id in live ==>
              && Contents(arrays, trees[id].logs) == history[id].logs
              && left <= live && left != [] && left[|left| - 1] == id
  {
    if id in live {
      var p :| 0 <= p < |live| && live[p] == id;
      left := live[..p + 1];
    } else {
      left := [];
    }
  }

  class Txn {
    const snapshot: World

    /** How much room appending makes for an array that is full. */
    const grow: nat -> nat

    var objects: Objects
    var logs: Option<Slice>
    var refund: Option<int>
    var trees: seq<Tree>
    var arrays: seq<seq<Log>>

    /** The overlay this stands for, and what it was when each snapshot was taken. */
    ghost var view: Overlay
    ghost var history: seq<Overlay>

    /** The snapshots on the stack: taken, and no earlier one reverted to since. */
    ghost var live: seq<nat>

    /** The value of every object in any tree; it never changes. */
    ghost var frozen: map<ObjectRef, StateObject>

    ghost predicate Frozen()
      reads this`frozen, frozen.Keys, set r | r in frozen :: r.account
    {
      forall r | r in frozen :: r.Value() == frozen[r]
    }

    ghost predicate Valid()
      reads this, frozen.Keys, set r | r in frozen :: r.account
    {
      && Frozen()
      && Holds(frozen, objects, view.objects) && refund == view.refund
      && TreesHold(frozen, trees, history)
      && LogsFine(arrays, logs, trees, history, live)
      && Contents(arrays, logs) == view.logs
    }

    constructor (w: World, grow: nat -> nat)
      ensures Valid() && view == EMPTY && snapshot == w && this.grow == grow && trees == []
      ensures arrays == [] && live == [] && history == [] && logs == None
    {
      snapshot, this.grow := w, grow;
      objects, logs, refund, trees, arrays := map[], None, None, [], [];
      view, history, live, frozen := EMPTY, [], [], map[];
    }

    method Snapshot() returns (id: nat)
      requires Valid()
      modifies this`trees, this`history, this`live
      ensures Valid()
      ensures id == |old(history)| && history == old(history) + [view] && live == old(live) + [id]
      ensures trees == old(trees) + [Tree(objects, logs, refund)]
    {
      id := |trees|;
      trees := trees + [Tree(objects, logs, refund)];
      history := history + [view];
      live := live + [id];
    }

    /**
     Accounts and refund are restored for every snapshot ever taken, whatever
     happened since. The logs are restored too if the snapshot is on the stack.
     */
    method RevertToSnapshot(id: nat)
      requires Valid() && id < |trees|
      modifies this`objects, this`logs, this`refund, this`live, this`view
      ensures Valid()
      ensures view.objects == history[id].objects && view.refund == history[id].refund
      ensures id in old(live) ==> view == history[id]
      ensures id in old(live) ==> live <= old(live) && live != [] && live[|live| - 1] == id
      ensures logs == trees[id].logs
    {
      hide Holds, TreesHold, LogsFine, Frozen, Contents;
      var tree := trees[id];
      TreeHolds(frozen, trees, history, id);
      live := RevertFine(arrays, logs, trees, history, live, id);
      objects, logs, refund := tree.objects, tree.logs, tree.refund;
      view := history[id].(logs := Contents(arrays, tree.logs));
    }

    lemma ObjectAt(a: Address)
      requires Valid()
      ensures a in objects <==> a in view.objects
      ensures a in objects ==> objects[a] in frozen && objects[a].Value() == view.objects[a]
    {
    }

    /** The overlay this stands for. */
    method Read() returns (o: Overlay)
      requires Valid()
      ensures o == view
    {
      hide Valid;
      forall a ensures a in objects <==> a in view.objects ensures a in objects ==> objects[a].Value() == view.objects[a] {
        ObjectAt(a);
      }
      OthersAre();
      var shown := map a | a in objects :: objects[a].Value();
      assert shown == view.objects;
      o := Overlay(shown, Contents(arrays, logs), refund);
    }

    lemma OthersAre()
      requires Valid()
      ensures InRange(arrays, logs) && Contents(arrays, logs) == view.logs && refund == view.refund
    {
    }

    /** A later snapshot is higher on the stack. */
    lemma StackIncreases()
      requires Valid()
      ensures |history| == |trees| && (forall p | 0 <= p < |live| :: live[p] < |history|)
      ensures forall p, q | 0 <= p < q < |live| :: live[p] < live[q]
    {
    }

    /** A private copy of the object at an address. */
    method Fetched(a: Address) returns (r: ObjectRef, found: bool)
      requires Valid()
      ensures fresh(r) && fresh(r.account)
      ensures r.Value() == Fetch(snapshot, view, a)
      ensures found <==> Lookup(snapshot, view, a).Some?
    {
      hide Valid;
      ObjectAt(a);
      if a in objects && !objects[a].deleted {
        r := objects[a].Copy();
        found := true;
      } else if a !in objects && a in snapshot {
        r := new ObjectRef(snapshot[a]);
        found := true;
      } else {
        r := new ObjectRef(NewAccount());
        found := false;
      }
    }

    /** Puts a new object into the tree; nothing may change it from here on. */
    method Put(a: Address, r: ObjectRef)
      requires Valid() && r !in frozen
      modifies this`objects, this`frozen, this`view
      ensures Valid() && view == Insert(old(view), a, r.Value())
      ensures frozen == old(frozen)[r := r.Value()] && objects == old(objects)[a := r]
    {
      hide Holds, TreesHold, LogsFine;
      FreezeKeeps(frozen, r, r.Value(), trees, history);
      PutHolds(frozen, objects, view.objects, a, r, r.Value());
      frozen := frozen[r := r.Value()];
      objects := objects[a := r];
      view := Insert(view, a, r.Value());
    }

    method DoAddBalance(a: Address, amount: nat)
      requires Valid()
      modifies this`objects, this`frozen, this`view
      ensures Valid() && view == AddBalance(snapshot, old(view), a, amount)
    {
      hide Valid;
      var r, _ := Fetched(a);
      r.account.balance := r.account.balance + amount;
      Put(a, r);
    }

    method DoSubBalance(a: Address, amount: nat) returns (ok: bool)
      requires Valid()
      modifies this`objects, this`frozen, this`view
      ensures Valid()
      ensures var after := SubBalance(snapshot, old(view), a, amount);
              ok == after.Some? && view == if ok then after.value else old(view)
    {
      hide Valid;
      if amount == 0 {
        return true;
      }
      var r, found := Fetched(a);
      if r.account.balance < amount {
        return false;
      }
      r.account.balance := r.account.balance - amount;
      Put(a, r);
      return true;
    }

    method DoIncrNonce(a: Address)
      requires Valid()
      modifies this`objects, this`frozen, this`view
      ensures Valid() && view == IncrNonce(snapshot, old(view), a)
    {
      hide Valid;
      var r, _ := Fetched(a);
      r.account.nonce := (r.account.nonce + 1) % U64;
      Put(a, r);
    }

    method DoSetCode(a: Address, code: Code)
      requires Valid()
      modifies this`objects, this`frozen, this`view
      ensures Valid() && view == SetCode(snapshot, old(view), a, code)
    {
      hide Valid;
      var r, _ := Fetched(a);
      r.account.code := code;
      Put(a, r);
    }

    method DoSetState(a: Address, k: Key, v: Val)
      requires Valid()
      modifies this`objects, this`frozen, this`view
      ensures Valid() && view == SetState(snapshot, old(view), a, k, v)
    {
      hide Valid;
      var r, _ := Fetched(a);
      r.dirty := r.dirty[k := v];
      Put(a, r);
    }

    method DoSetBalance(a: Address, balance: nat)
      requires Valid()
      modifies this`objects, this`frozen, this`view
      ensures Valid() && view == SetBalance(snapshot, old(view), a, balance)
    {
      hide Valid;
      var r, _ := Fetched(a);
      r.account.balance := balance;
      Put(a, r);
    }

    method DoSetNonce(a: Address, nonce: nat)
      requires Valid()
      modifies this`objects, this`frozen, this`view
      ensures Valid() && view == SetNonce(snapshot, old(view), a, nonce)
    {
      hide Valid;
      var r, _ := Fetched(a);
      r.account.nonce := nonce;
      Put(a, r);
    }

    /** Copies the object into the tree as it is. */
    method DoTouchAccount(a: Address)
      requires Valid()
      modifies this`objects, this`frozen, this`view
      ensures Valid() && view == TouchAccount(snapshot, old(view), a)
    {
      hide Valid;
      var r, _ := Fetched(a);
      Put(a, r);
    }

    /** A destroyed account starts afresh with the reward. */
    method DoAddSealingReward(a: Address, amount: nat)
      requires Valid()
      modifies this`objects, this`frozen, this`view
      ensures Valid() && view == AddSealingReward(snapshot, old(view), a, amount)
    {
      hide Valid;
      var r, _ := Fetched(a);
      if r.suicide {
        r := new ObjectRef(NewAccount());
      }
      r.account.balance := r.account.balance + amount;
      Put(a, r);
    }

    method DoSuicide(a: Address) returns (suicided: bool)
      requires Valid()
      modifies this`objects, this`frozen, this`view
      ensures Valid() && view == Suicide(snapshot, old(view), a)
      ensures suicided <==> Lookup(snapshot, old(view), a).Some? && !Lookup(snapshot, old(view), a).value.suicide
    {
      hide Valid;
      var r, found := Fetched(a);
      if !found {
        return false;
      }
      suicided := !r.suicide;
      r.suicide := true;
      r.account.balance := 0;
      Put(a, r);
    }

    method DoCreateAccount(a: Address)
      requires Valid()
      modifies this`objects, this`frozen, this`view
      ensures Valid() && view == CreateAccount(snapshot, old(view), a)
    {
      hide Valid;
      var prev, found := Fetched(a);
      var r := new ObjectRef(NewAccount());
      if found {
        r.account.balance := prev.account.balance;
      }
      Put(a, r);
    }

    /** Appends in place when the array has room, and moves to a larger array when it has not. */
    method DoEmitLog(log: Log)
      requires Valid()
      modifies this`logs, this`arrays, this`view
      ensures Valid() && view == EmitLog(old(view), log)
      ensures (arrays, logs) == Append(old(arrays), old(logs), log, grow)
    {
      AppendFine(arrays, logs, log, grow, trees, history, live);
      if logs.Some? && logs.value.len < |arrays[logs.value.arr]| {
        var s := logs.value;
        arrays := arrays[s.arr := arrays[s.arr][s.len := log]];
        logs := Some(Slice(s.arr, s.len + 1));
      } else {
        var contents := if logs.Some? then arrays[logs.value.arr][..logs.value.len] else [];
        logs := Some(Slice(|arrays|, |contents| + 1));
        arrays := arrays + [contents + [log] + seq(grow(|contents|), i => 0)];
      }
      view := EmitLog(view, log);
    }

    method DoTakeLogs() returns (taken: seq<Log>)
      requires Valid()
      modifies this`logs, this`view
      ensures Valid() && view == TakeLogs(old(view)).0 && taken == TakeLogs(old(view)).1
    {
      taken := if logs.Some? then arrays[logs.value.arr][..logs.value.len] else [];
      logs := None;
      view := TakeLogs(view).0;
    }

    method DoRefund(delta: int)
      requires Valid()
      modifies this`refund, this`view
      ensures Valid() && view == old(view).(refund := Some(RefundSum(old(view)) + delta))
    {
      refund := Some((if refund.Some? then refund.value else 0) + delta);
      view := view.(refund := refund);
    }

    method ReadSlot(a: Address, k: Key) returns (current: Val, original: Val)
      requires Valid()
      ensures current == GetState(snapshot, view, a, k) && original == GetCommittedState(snapshot, view, a, k)
    {
      hide Valid;
      var r, found := Fetched(a);
      if !found {
        return 0, 0;
      }
      original := LoadAt(r.account.root, k);
      current := if k in r.dirty then r.dirty[k] else original;
    }

    /** The storage write of the interpreter, with its refund. */
    method DoSetStorage(a: Address, k: Key, v: Val, m: Metering) returns (status: Status)
      requires Valid()
      modifies this`objects, this`frozen, this`view, this`refund
      ensures Valid() && (view, status) == SetStorage(snapshot, old(view), a, k, v, m)
    {
      hide Valid;
      var current, original := ReadSlot(a, k);
      if current == v {
        return Unchanged;
      }
      DoSetState(a, k, v);
      if m == Legacy || original == current {
        if current == 0 {
          return Added;
        } else if v == 0 {
          DoRefund(15000);
          return Deleted;
        }
        return Modified;
      }
      if original != 0 {
        if current == 0 {
          DoRefund(-15000);
        } else if v == 0 {
          DoRefund(15000);
        }
      }
      if original == v {
        if original == 0 {
          DoRefund(if m == Istanbul then 19200 else 19800);
        } else {
          DoRefund(if m == Istanbul then 4200 else 4800);
        }
      }
      return ModifiedAgain;
    }

    method DoCleanDelete(deleteEmpty: bool)
      requires Valid()
      modifies this`objects, this`refund, this`frozen, this`view
      ensures Valid() && view == CleanDelete(old(view), deleteEmpty)
    {
      hide Valid;
      forall a ensures a in objects <==> a in view.objects ensures a in objects ==> objects[a].Value() == view.objects[a] {
        ObjectAt(a);
      }
      var remove := set a | a in objects && Doomed(objects[a].Value(), deleteEmpty);
      MarkAll(remove);
      DropRefund();
      CleanIsMarked(old(view), deleteEmpty, remove);
    }

    /** Puts a copy of an object that is marked as deleted. */
    method Mark(a: Address)
      requires Valid() && a in objects && a in view.objects
      modifies this`objects, this`frozen, this`view
      ensures Valid() && objects.Keys == old(objects.Keys)
      ensures view == Insert(old(view), a, old(view).objects[a].(deleted := true))
    {
      hide Valid;
      ObjectAt(a);
      var r := objects[a].Copy();
      r.deleted := true;
      Put(a, r);
    }

    method MarkAll(remove: set<Address>)
      requires Valid() && remove <= objects.Keys
      modifies this`objects, this`frozen, this`view
      ensures Valid() && view == Marked(old(view), remove)
    {
      hide Valid;
      var todo := remove;
      assert view == Marked(view, {});
      while todo != {}
        invariant todo <= remove <= objects.Keys && Valid()
        invariant view == Marked(old(view), remove - todo)
      {
        var a :| a in todo;
        ObjectAt(a);
        MarkOne(old(view), remove - todo, a);
        Mark(a);
        assert remove - (todo - {a}) == remove - todo + {a};
        todo := todo - {a};
      }
      assert remove - todo == remove;
    }

    method DropRefund()
      requires Valid()
      modifies this`refund, this`view
      ensures Valid() && view == old(view).(refund := None)
    {
      refund := None;
      view := view.(refund := None);
    }

    /** Cleans up and lists every object. */
    method Commit(deleteEmpty: bool) returns (objs: seq<Object>)
      requires Valid()
      modifies this`objects, this`refund, this`frozen, this`view
      ensures Valid() && view == CleanDelete(old(view), deleteEmpty)
      ensures IsCommitList(view, objs)
    {
      hide Valid;
      DoCleanDelete(deleteEmpty);
      objs := List();
    }

    method List() returns (objs: seq<Object>)
      requires Valid()
      ensures IsCommitList(view, objs)
    {
      hide Valid;
      forall a ensures a in objects <==> a in view.objects ensures a in objects ==> objects[a].Value() == view.objects[a] {
        ObjectAt(a);
      }
      objs := [];
      var todo := objects.Keys;
      while todo != {}
        invariant todo <= objects.Keys && ListedBut(view, objs, todo)
      {
        var a :| a in todo;
        ListOne(view, objs, todo, a);
        objs := objs + [ToObject(a, objects[a].Value())];
        todo := todo - {a};
      }
    }
  }

  /** Every object outside `todo` is listed once. */
  ghost predicate ListedBut(o: Overlay, objs: seq<Object>, todo: set<Address>) {
    && (forall i, j | 0 <= i < j < |objs| :: objs[i].address != objs[j].address)
    && (forall i | 0 <= i < |objs| ::
          var a := objs[i].address; a in o.objects && a !in todo && objs[i] == ToObject(a, o.objects[a]))
    && (forall a | a in o.objects && a !in todo :: exists i :: 0 <= i < |objs| && objs[i].address == a)
  }

  lemma ListOne(o: Overlay, objs: seq<Object>, todo: set<Address>, a: Address)
    requires ListedBut(o, objs, todo) && a in todo && a in o.objects
    ensures ListedBut(o, objs + [ToObject(a, o.objects[a])], todo - {a})
  {
    var more := objs + [ToObject(a, o.objects[a])];
    assert more[|objs|].address == a;
    forall b | b in o.objects && b !in todo - {a} ensures exists i :: 0 <= i < |more| && more[i].address == b {
      if b != a {
        var i :| 0 <= i < |objs| && objs[i].address == b;
        assert more[i].address == b;
      }
    }
  }

  // ---------- cleaning up ----------

  /** The overlay with some objects marked as deleted. */
  ghost function Marked(o: Overlay, done: set<Address>): Overlay {
    o.(objects := map a | a in o.objects :: if a in done then o.objects[a].(deleted := true) else o.objects[a])
  }

  lemma CleanIsMarked(o: Overlay, deleteEmpty: bool, remove: set<Address>)
    requires forall a :: a in remove <==> a in o.objects && Doomed(o.objects[a], deleteEmpty)
    ensures Marked(o, remove).(refund := None) == CleanDelete(o, deleteEmpty)
  {
    assert Marked(o, remove).objects == CleanDelete(o, deleteEmpty).objects;
  }

  lemma MarkOne(o: Overlay, done: set<Address>, a: Address)
    requires a in o.objects && a !in done
    ensures Marked(o, done).objects[a] == o.objects[a]
    ensures Insert(Marked(o, done), a, o.objects[a].(deleted := true)) == Marked(o, done + {a})
  {
    var l, r := Insert(Marked(o, done), a, o.objects[a].(deleted := true)).objects, Marked(o, done + {a}).objects;
    assert l == r;
  }

  // ---------- log slices ----------

  /** Appending to a slice: in place while the array has room. */
  function Append(arrays: seq<seq<Log>>, logs: Option<Slice>, log: Log, grow: nat -> nat): (seq<seq<Log>>, Option<Slice>)
    requires InRange(arrays, logs)
  {
    if logs.Some? && logs.value.len < |arrays[logs.value.arr]| then
      var s := logs.value;
      (arrays[s.arr := arrays[s.arr][s.len := log]], Some(Slice(s.arr, s.len + 1)))
    else
      var contents := if logs.Some? then arrays[logs.value.arr][..logs.value.len] else [];
      (arrays + [contents + [log] + seq(grow(|contents|), i => 0)], Some(Slice(|arrays|, |contents| + 1)))
  }

  /**
   Appending writes behind the end of the current slice. Another slice keeps
   its contents exactly unless it reaches further into the same array and sees
   the new entry there.
   */
  lemma AppendKeepsIff(arrays: seq<seq<Log>>, logs: Option<Slice>, log: Log, grow: nat -> nat, s: Option<Slice>)
    requires InRange(arrays, logs) && InRange(arrays, s)
    ensures InRange(Append(arrays, logs, log, grow).0, s)
    ensures Contents(Append(arrays, logs, log, grow).0, s) == Contents(arrays, s)
            <==> Before(s, logs) || arrays[s.value.arr][logs.value.len] == log
  {
    var arrays' := Append(arrays, logs, log, grow).0;
    if !Before(s, logs) {
      var n := logs.value.len;
      assert Contents(arrays', s).value[n] == log && Contents(arrays, s).value[n] == arrays[s.value.arr][n];
      if arrays[s.value.arr][n] == log {
        assert arrays'[s.value.arr] == arrays[s.value.arr];
      }
    }
  }

  lemma AppendFine(arrays: seq<seq<Log>>, logs: Option<Slice>, log: Log, grow: nat -> nat,
                   trees: seq<Tree>, history: seq<Overlay>, live: seq<nat>)
    requires LogsFine(arrays, logs, trees, history, live)
    ensures var (arrays', logs') := Append(arrays, logs, log, grow);
            && LogsFine(arrays', logs', trees, history, live)
            && Contents(arrays', logs') == Some((if logs.Some? then Contents(arrays, logs).value else []) + [log])
  {
    var (arrays', logs') := Append(arrays, logs, log, grow);
    AppendKeepsIff(arrays, logs, log, grow, logs);
    forall i | 0 <= i < |trees| ensures InRange(arrays', trees[i].logs) {
      AppendKeepsIff(arrays, logs, log, grow, trees[i].logs);
    }
    forall p | 0 <= p < |live|
      ensures Contents(arrays', trees[live[p]].logs) == history[live[p]].logs && Before(trees[live[p]].logs, logs')
    {
      AppendKeepsIff(arrays, logs, log, grow, trees[live[p]].logs);
    }
    var contents := if logs.Some? then Contents(arrays, logs).value else [];
    assert arrays'[logs'.value.arr][..logs'.value.len] == contents + [log];
  }

  lemma LogsAre(t: Txn)
    requires t.Valid()
    ensures InRange(t.arrays, t.logs) && t.view.logs == Contents(t.arrays, t.logs)
  {
  }

  lemma AppendToFull(arrays: seq<seq<Log>>, logs: Option<Slice>, log: Log, grow: nat -> nat)
    requires InRange(arrays, logs) && (logs.Some? ==> logs.value.len == |arrays[logs.value.arr]|)
    ensures var (arrays', logs') := Append(arrays, logs, log, grow);
            var n := if logs.Some? then logs.value.len else 0;
            && logs' == Some(Slice(|arrays|, n + 1)) && |arrays'| == |arrays| + 1 && |arrays'[|arrays|]| == n + 1 + grow(n)
  {
  }

  lemma AppendInPlace(arrays: seq<seq<Log>>, s: Slice, log: Log, grow: nat -> nat)
    requires InRange(arrays, Some(s)) && s.len < |arrays[s.arr]|
    ensures var (arrays', logs') := Append(arrays, Some(s), log, grow);
            && logs' == Some(Slice(s.arr, s.len + 1)) && |arrays'| == |arrays|
            && |arrays'[s.arr]| == |arrays[s.arr]| && arrays'[s.arr][s.len] == log
  {
  }

  /** Three logs in an array for four, as doubling a full array gives. */
  method ThreeLogs() returns (t: Txn)
    ensures fresh(t) && t.Valid() && t.trees == [] && t.history == [] && t.live == []
    ensures t.logs == Some(Slice(2, 3)) && |t.arrays| == 3 && |t.arrays[2]| == 4
  {
    hide Txn.Valid, Append;
    var grow := (n: nat) => if n == 0 then 0 else n - 1;
    t := new Txn(map[], grow);
    AppendToFull(t.arrays, t.logs, 1, grow);
    t.DoEmitLog(1);
    AppendToFull(t.arrays, t.logs, 2, grow);
    t.DoEmitLog(2);
    AppendToFull(t.arrays, t.logs, 3, grow);
    t.DoEmitLog(3);
  }

  /**
   Out of stack order the logs are not safe: after reverting to an earlier
   snapshot, an append writes into the array that a later one still refers to.
   */
  method RevertOutOfOrder() returns (t: Txn, id: nat)
    ensures t.Valid() && id < |t.history| && t.view.logs != t.history[id].logs
  {
    hide Txn.Valid, Append;
    t := ThreeLogs();
    var first := t.Snapshot();
    AppendInPlace(t.arrays, t.logs.value, 4, t.grow);
    t.DoEmitLog(4);
    LogsAre(t);
    id := t.Snapshot();
    assert t.history[id].logs.value[3] == 4;
    t.RevertToSnapshot(first);
    AppendInPlace(t.arrays, t.logs.value, 5, t.grow);
    t.DoEmitLog(5);
    t.RevertToSnapshot(id);
    LogsAre(t);
    assert t.view.logs.value[3] == 5;
  }
}
