/**
 The state overlay of one block: changes are kept in memory, on top of a
 committed snapshot, until they are committed as a list of objects.

 A storage root stands for the storage it is the root of, and a code hash for
 the code it is the hash of.
 */
module State {
  import opened Common

  type Key = nat

  /** Zero is the value of an empty slot. */
  type Val = nat

  type Code = seq<int>

  type Storage = m: map<Key, Val> | forall k | k in m :: m[k] != 0 witness map[]

  datatype Account = Account(nonce: nat, balance: nat, root: Storage, code: Code)

  /** The committed state. */
  type World = map<Address, Account>

  /** `dirty` holds the slots written so far; a zero there is a deletion. */
  datatype StateObject = StateObject(account: Account, suicide: bool, deleted: bool, dirty: map<Key, Val>)

  type Log = int

  /** `refund` is the running sum of the refund counter; see GetRefund. */
  datatype Overlay = Overlay(objects: map<Address, StateObject>, logs: Option<seq<Log>>, refund: Option<int>)

  const EMPTY := Overlay(map[], None, None)

  function LoadAt(s: Storage, k: Key): Val {
    if k in s then s[k] else 0
  }

  function StoreAt(s: Storage, k: Key, v: Val): Storage {
    if v == 0 then s - {k} else s[k := v]
  }

  function NewAccount(): Account {
    Account(0, 0, map[], [])
  }

  function NewObject(): StateObject {
    StateObject(NewAccount(), false, false, map[])
  }

  predicate IsEmpty(a: Account) {
    a.nonce == 0 && a.balance == 0 && a.code == []
  }

  // ---------- reads ----------

  /** The overlay answers first; a deleted object hides the committed account. */
  function Lookup(w: World, o: Overlay, a: Address): Option<StateObject> {
    if a in o.objects then
      if o.objects[a].deleted then None else Some(o.objects[a])
    else if a in w then Some(StateObject(w[a], false, false, map[]))
    else None
  }

  function GetBalance(w: World, o: Overlay, a: Address): nat {
    var obj := Lookup(w, o, a);
    if obj.Some? then obj.value.account.balance else 0
  }

  function GetNonce(w: World, o: Overlay, a: Address): nat {
    var obj := Lookup(w, o, a);
    if obj.Some? then obj.value.account.nonce else 0
  }

  function GetCode(w: World, o: Overlay, a: Address): Code {
    var obj := Lookup(w, o, a);
    if obj.Some? then obj.value.account.code else []
  }

  function GetState(w: World, o: Overlay, a: Address, k: Key): Val {
    var obj := Lookup(w, o, a);
    if obj == None then 0
    else if k in obj.value.dirty then obj.value.dirty[k]
    else LoadAt(obj.value.account.root, k)
  }

  function GetCommittedState(w: World, o: Overlay, a: Address, k: Key): Val {
    var obj := Lookup(w, o, a);
    if obj == None then 0 else LoadAt(obj.value.account.root, k)
  }

  function RefundSum(o: Overlay): int {
    if o.refund.Some? then o.refund.value else 0
  }

  /** The counter itself is an unsigned 64-bit number: the running sum, wrapped. */
  function GetRefund(o: Overlay): nat {
    RefundSum(o) % U64
  }

  // ---------- writes ----------

  /** The object to modify: a copy of what is there, or a new one. */
  function Fetch(w: World, o: Overlay, a: Address): StateObject {
    var obj := Lookup(w, o, a);
    if obj.Some? then obj.value else NewObject()
  }

  function Insert(o: Overlay, a: Address, obj: StateObject): Overlay {
    o.(objects := o.objects[a := obj])
  }

  function WithAccount(w: World, o: Overlay, a: Address, acc: Account): Overlay {
    Insert(o, a, Fetch(w, o, a).(account := acc))
  }

  function AddBalance(w: World, o: Overlay, a: Address, amount: nat): Overlay {
    var acc := Fetch(w, o, a).account;
    WithAccount(w, o, a, acc.(balance := acc.balance + amount))
  }

  /** Fails when the balance is too small; subtracting nothing does not touch the account. */
  function SubBalance(w: World, o: Overlay, a: Address, amount: nat): Option<Overlay> {
    if amount == 0 then Some(o)
    else if GetBalance(w, o, a) < amount then None
    else
      var acc := Fetch(w, o, a).account;
      Some(WithAccount(w, o, a, acc.(balance := acc.balance - amount)))
  }

  function SetBalance(w: World, o: Overlay, a: Address, amount: nat): Overlay {
    WithAccount(w, o, a, Fetch(w, o, a).account.(balance := amount))
  }

  function AddSealingReward(w: World, o: Overlay, a: Address, amount: nat): Overlay {
    var obj := Fetch(w, o, a);
    if obj.suicide then Insert(o, a, NewObject().(account := NewAccount().(balance := amount)))
    else AddBalance(w, o, a, amount)
  }

  function IncrNonce(w: World, o: Overlay, a: Address): Overlay {
    var acc := Fetch(w, o, a).account;
    WithAccount(w, o, a, acc.(nonce := (acc.nonce + 1) % U64))
  }

  function SetNonce(w: World, o: Overlay, a: Address, nonce: nat): Overlay {
    WithAccount(w, o, a, Fetch(w, o, a).account.(nonce := nonce))
  }

  function SetCode(w: World, o: Overlay, a: Address, code: Code): Overlay {
    WithAccount(w, o, a, Fetch(w, o, a).account.(code := code))
  }

  function SetState(w: World, o: Overlay, a: Address, k: Key, v: Val): Overlay {
    var obj := Fetch(w, o, a);
    Insert(o, a, obj.(dirty := obj.dirty[k := v]))
  }

  function TouchAccount(w: World, o: Overlay, a: Address): Overlay {
    Insert(o, a, Fetch(w, o, a))
  }

  /** Marks an existing account for deletion and takes its balance away. */
  function Suicide(w: World, o: Overlay, a: Address): Overlay {
    var obj := Lookup(w, o, a);
    if obj == None then o
    else Insert(o, a, obj.value.(suicide := true, account := obj.value.account.(balance := 0)))
  }

  /** A new account, which keeps only the balance of the one it replaces. */
  function CreateAccount(w: World, o: Overlay, a: Address): Overlay {
    Insert(o, a, NewObject().(account := NewAccount().(balance := GetBalance(w, o, a))))
  }

  function AddRefund(o: Overlay, gas: nat): Overlay {
    o.(refund := Some(RefundSum(o) + gas))
  }

  function SubRefund(o: Overlay, gas: nat): Overlay {
    o.(refund := Some(RefundSum(o) - gas))
  }

  function EmitLog(o: Overlay, log: Log): Overlay {
    o.(logs := Some((if o.logs.Some? then o.logs.value else []) + [log]))
  }

  /** Hands the logs out and forgets them. */
  function TakeLogs(o: Overlay): (Overlay, seq<Log>) {
    (o.(logs := None), if o.logs.Some? then o.logs.value else [])
  }

  predicate Doomed(obj: StateObject, deleteEmpty: bool) {
    obj.suicide || (deleteEmpty && IsEmpty(obj.account))
  }

  function CleanDelete(o: Overlay, deleteEmpty: bool): Overlay {
    o.(objects := map a | a in o.objects ::
                    if Doomed(o.objects[a], deleteEmpty) then o.objects[a].(deleted := true) else o.objects[a],
       refund := None)
  }

  // ---------- commit ----------

  /** One entry of a commit list. */
  datatype Object = Object(address: Address, account: Account, deleted: bool, storage: map<Key, Val>)

  function ToObject(a: Address, obj: StateObject): Object {
    Object(a, obj.account, obj.deleted, if obj.deleted then map[] else obj.dirty)
  }

  /** What the snapshot makes of one entry: the dirty slots go into the account's storage. */
  function Flushed(root: Storage, dirty: map<Key, Val>): Storage {
    map k | k in root.Keys + dirty.Keys && (if k in dirty then dirty[k] else root[k]) != 0
      :: if k in dirty then dirty[k] else root[k]
  }

  function ApplyObject(w: World, obj: Object): World {
    if obj.deleted then w - {obj.address}
    else w[obj.address := obj.account.(root := Flushed(obj.account.root, obj.storage))]
  }

  function ApplyAll(w: World, objs: seq<Object>): World
    decreases |objs|
  {
    if objs == [] then w else ApplyAll(ApplyObject(w, objs[0]), objs[1..])
  }

  /** A commit list for the overlay: every object once, in any order. */
  ghost predicate IsCommitList(o: Overlay, objs: seq<Object>) {
    && (forall i, j | 0 <= i < j < |objs| :: objs[i].address != objs[j].address)
    && (forall i | 0 <= i < |objs| :: objs[i].address in o.objects && objs[i] == ToObject(objs[i].address, o.objects[objs[i].address]))
    && forall a | a in o.objects :: exists i :: 0 <= i < |objs| && objs[i].address == a
  }

  /** What applying the list leaves at an address depends on the overlay only. */
  lemma {:induction false} ApplyAllAt(w: World, objs: seq<Object>, a: Address)
    requires forall i, j | 0 <= i < j < |objs| :: objs[i].address != objs[j].address
    ensures (forall i | 0 <= i < |objs| :: objs[i].address != a) ==>
              (a in ApplyAll(w, objs) <==> a in w) && (a in w ==> ApplyAll(w, objs)[a] == w[a])
    ensures forall i | 0 <= i < |objs| && objs[i].address == a ::
              if objs[i].deleted then a !in ApplyAll(w, objs)
              else a in ApplyAll(w, objs)
                   && ApplyAll(w, objs)[a] == objs[i].account.(root := Flushed(objs[i].account.root, objs[i].storage))
    decreases |objs|
  {
    if objs != [] {
      ApplyAllAt(ApplyObject(w, objs[0]), objs[1..], a);
      forall i | 0 < i < |objs| ensures objs[i] == objs[1..][i - 1] {
      }
    }
  }

  // ---------- the simple state the overlay stands for ----------

  /**
   An account as one would keep it without an overlay. `committed` is the
   storage at the start of the block, which net gas metering refers to.
   */
  datatype Plain = Plain(nonce: nat, balance: nat, code: Code, committed: Storage, storage: Storage,
                         suicide: bool, touched: bool)

  function ToPlain(obj: StateObject, touched: bool): Plain {
    var acc := obj.account;
    Plain(acc.nonce, acc.balance, acc.code, acc.root, Flushed(acc.root, obj.dirty), obj.suicide, touched)
  }

  /** The account at an address, seen through the overlay. */
  function PlainAt(w: World, o: Overlay, a: Address): Option<Plain> {
    var obj := Lookup(w, o, a);
    if obj.Some? then Some(ToPlain(obj.value, a in o.objects)) else None
  }

  lemma FlushedRead(root: Storage, dirty: map<Key, Val>, k: Key)
    ensures LoadAt(Flushed(root, dirty), k) == if k in dirty then dirty[k] else LoadAt(root, k)
  {
  }

  lemma FlushedWrite(root: Storage, dirty: map<Key, Val>, k: Key, v: Val)
    ensures Flushed(root, dirty[k := v]) == StoreAt(Flushed(root, dirty), k, v)
  {
  }

  lemma FlushedNothing(root: Storage)
    ensures Flushed(root, map[]) == root
  {
  }

  /** Reading through the overlay is reading that account. */
  lemma ReadsAgree(w: World, o: Overlay, a: Address, k: Key)
    ensures match PlainAt(w, o, a)
            case Some(p) =>
              && GetBalance(w, o, a) == p.balance && GetNonce(w, o, a) == p.nonce && GetCode(w, o, a) == p.code
              && GetState(w, o, a, k) == LoadAt(p.storage, k) && GetCommittedState(w, o, a, k) == LoadAt(p.committed, k)
            case None =>
              && GetBalance(w, o, a) == GetNonce(w, o, a) == GetState(w, o, a, k) == GetCommittedState(w, o, a, k) == 0
              && GetCode(w, o, a) == []
  {
    var obj := Lookup(w, o, a);
    if obj.Some? {
      FlushedRead(obj.value.account.root, obj.value.dirty, k);
    }
  }

  /** After a commit the overlay's contents are the committed contents. */
  function Rebase(p: Option<Plain>): Option<Plain> {
    if p == None then None
    else Some(p.value.(committed := p.value.storage, suicide := false, touched := false))
  }

  /**
   Commit: the world that results from applying the list, seen through a fresh
   overlay, has at every address what this overlay showed there, with the
   storage now the committed one. Accounts deleted and created again are no
   exception.
   */
  lemma CommitRefines(w: World, o: Overlay, deleteEmpty: bool, objs: seq<Object>, a: Address)
    requires IsCommitList(CleanDelete(o, deleteEmpty), objs)
    ensures PlainAt(ApplyAll(w, objs), EMPTY, a) == Rebase(PlainAt(w, CleanDelete(o, deleteEmpty), a))
  {
    var c, w' := CleanDelete(o, deleteEmpty), ApplyAll(w, objs);
    ApplyAllAt(w, objs, a);
    if a in c.objects {
      var i :| 0 <= i < |objs| && objs[i].address == a;
      if a in w' {
        FlushedNothing(w'[a].root);
      }
    } else if a in w {
      FlushedNothing(w[a].root);
    }
  }
}
