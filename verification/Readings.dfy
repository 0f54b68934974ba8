/**
 What can be read of an account through the overlay, and what each operation
 does to the readings of every address.
 */
module Readings {
  import opened Common
  import opened State

  /** `marked` says that the account is to be deleted at the end of the telegram. */
  datatype Reading = Reading(balance: nat, nonce: nat, code: Code, storage: Storage, committed: Storage, marked: bool)

  const NOTHING := Reading(0, 0, [], map[], map[], false)

  function ReadAt(w: World, o: Overlay, a: Address): Reading {
    match PlainAt(w, o, a)
    case Some(p) => Reading(p.balance, p.nonce, p.code, p.storage, p.committed, p.suicide)
    case None => NOTHING
  }

  /** The account is marked for deletion, and not deleted yet. */
  predicate Marked(o: Overlay, a: Address) {
    a in o.objects && o.objects[a].suicide && !o.objects[a].deleted
  }

  /** Equal readings are equal answers to every question. */
  lemma ReadingIs(w: World, o: Overlay, a: Address, k: Key)
    ensures var r := ReadAt(w, o, a);
            && r.balance == GetBalance(w, o, a) && r.nonce == GetNonce(w, o, a) && r.code == GetCode(w, o, a)
            && LoadAt(r.storage, k) == GetState(w, o, a, k) && LoadAt(r.committed, k) == GetCommittedState(w, o, a, k)
            && r.marked == Marked(o, a)
  {
    ReadsAgree(w, o, a, k);
  }

  /** Only the balance differs: `minus` is gone and `plus` is there. */
  ghost predicate Differs(after: Reading, before: Reading, minus: nat, plus: nat) {
    after == before.(balance := after.balance) && after.balance + minus == before.balance + plus
  }

  function If(condition: bool, amount: nat): nat {
    if condition then amount else 0
  }

  function Counted(r: Reading): Reading {
    r.(nonce := (r.nonce + 1) % U64)
  }

  lemma FetchReads(w: World, o: Overlay, a: Address)
    ensures var acc := Fetch(w, o, a).account;
            ReadAt(w, o, a) == Reading(acc.balance, acc.nonce, acc.code, Flushed(acc.root, Fetch(w, o, a).dirty), acc.root,
                                    Fetch(w, o, a).suicide)
    ensures !Fetch(w, o, a).deleted
  {
    FlushedNothing(map[]);
  }

  /** Inserting an object is seen at its address only. */
  lemma InsertReads(w: World, o: Overlay, a: Address, obj: StateObject, b: Address)
    requires !obj.deleted
    ensures var acc := obj.account;
            ReadAt(w, Insert(o, a, obj), b)
            == if a == b then Reading(acc.balance, acc.nonce, acc.code, Flushed(acc.root, obj.dirty), acc.root, obj.suicide) else ReadAt(w, o, b)
  {
  }

  lemma AddReads(w: World, o: Overlay, a: Address, amount: nat, b: Address)
    ensures Differs(ReadAt(w, AddBalance(w, o, a, amount), b), ReadAt(w, o, b), 0, If(a == b, amount))
  {
    hide ReadAt;
    FetchReads(w, o, a);
    var obj := Fetch(w, o, a);
    InsertReads(w, o, a, obj.(account := obj.account.(balance := obj.account.balance + amount)), b);
  }

  lemma SubReads(w: World, o: Overlay, a: Address, amount: nat, b: Address)
    ensures SubBalance(w, o, a, amount).Some? <==> ReadAt(w, o, a).balance >= amount
    ensures SubBalance(w, o, a, amount).Some? ==>
              Differs(ReadAt(w, SubBalance(w, o, a, amount).value, b), ReadAt(w, o, b), If(a == b, amount), 0)
  {
    hide ReadAt;
    FetchReads(w, o, a);
    ReadingIs(w, o, a, 0);
    var obj := Fetch(w, o, a);
    if obj.account.balance >= amount {
      InsertReads(w, o, a, obj.(account := obj.account.(balance := obj.account.balance - amount)), b);
    }
  }

  lemma CountReads(w: World, o: Overlay, a: Address, b: Address)
    ensures ReadAt(w, IncrNonce(w, o, a), b) == if a == b then Counted(ReadAt(w, o, b)) else ReadAt(w, o, b)
  {
    hide ReadAt;
    FetchReads(w, o, a);
    var obj := Fetch(w, o, a);
    InsertReads(w, o, a, obj.(account := obj.account.(nonce := (obj.account.nonce + 1) % U64)), b);
  }

  lemma TouchReads(w: World, o: Overlay, a: Address, b: Address)
    ensures ReadAt(w, TouchAccount(w, o, a), b) == ReadAt(w, o, b)
  {
    hide ReadAt;
    FetchReads(w, o, a);
    InsertReads(w, o, a, Fetch(w, o, a), b);
  }

  lemma CodeReads(w: World, o: Overlay, a: Address, code: Code, b: Address)
    ensures ReadAt(w, SetCode(w, o, a, code), b) == if a == b then ReadAt(w, o, b).(code := code) else ReadAt(w, o, b)
  {
    hide ReadAt;
    FetchReads(w, o, a);
    var obj := Fetch(w, o, a);
    InsertReads(w, o, a, obj.(account := obj.account.(code := code)), b);
  }

  /** A new account has nothing but the balance that was there. */
  lemma CreateReads(w: World, o: Overlay, a: Address, b: Address)
    ensures ReadAt(w, CreateAccount(w, o, a), b) == if a == b then NOTHING.(balance := ReadAt(w, o, b).balance) else ReadAt(w, o, b)
  {
    hide ReadAt;
    ReadingIs(w, o, a, 0);
    FlushedNothing(map[]);
    InsertReads(w, o, a, NewObject().(account := NewAccount().(balance := GetBalance(w, o, a))), b);
  }

  /** Cleaning takes away what is marked, and what is empty if it was touched. */
  lemma CleanReads(w: World, o: Overlay, a: Address)
    ensures var r := ReadAt(w, o, a);
            var empty := a in o.objects && r.nonce == 0 && r.balance == 0 && r.code == [];
            ReadAt(w, CleanDelete(o, true), a) == if r.marked || empty then NOTHING else r
  {
  }
}
