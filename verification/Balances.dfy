/**
 The total of all balances, and what each overlay operation does to it.
 */
module Balances {
  import opened Common
  import opened State
  import opened Sums

  ghost function BalanceMap(w: World, o: Overlay): map<Address, nat> {
    map a | a in w.Keys + o.objects.Keys :: GetBalance(w, o, a)
  }

  /** The sum of all balances, seen through the overlay. */
  ghost function Total(w: World, o: Overlay): nat {
    Sum(BalanceMap(w, o))
  }

  lemma InsertTotal(w: World, o: Overlay, a: Address, obj: StateObject)
    requires !obj.deleted
    ensures Total(w, Insert(o, a, obj)) == Total(w, o) + obj.account.balance - GetBalance(w, o, a)
  {
    hide Sum;
    var m := BalanceMap(w, o);
    SumUpdate(m, a, obj.account.balance);
    assert BalanceMap(w, Insert(o, a, obj)) == m[a := obj.account.balance];
    assert a !in m ==> GetBalance(w, o, a) == 0;
  }

  /** Logs and refunds are no money. */
  lemma OthersTotal(w: World, o: Overlay, o': Overlay)
    requires o.objects == o'.objects
    ensures Total(w, o) == Total(w, o')
  {
    hide Sum;
    assert BalanceMap(w, o) == BalanceMap(w, o');
  }

  lemma AddTotal(w: World, o: Overlay, a: Address, amount: nat)
    ensures Total(w, AddBalance(w, o, a, amount)) == Total(w, o) + amount
    ensures forall b :: GetBalance(w, AddBalance(w, o, a, amount), b) == GetBalance(w, o, b) + (if a == b then amount else 0)
  {
    hide Sum, Total;
    var obj := Fetch(w, o, a);
    InsertTotal(w, o, a, obj.(account := obj.account.(balance := obj.account.balance + amount)));
  }

  lemma SubTotal(w: World, o: Overlay, a: Address, amount: nat)
    requires SubBalance(w, o, a, amount).Some?
    ensures amount <= Total(w, o)
    ensures Total(w, SubBalance(w, o, a, amount).value) == Total(w, o) - amount
  {
    hide Sum, Total;
    if amount != 0 {
      var obj := Fetch(w, o, a);
      InsertTotal(w, o, a, obj.(account := obj.account.(balance := obj.account.balance - amount)));
    }
  }

  /** Operations that rewrite an object but not its balance. */
  lemma SameBalanceTotal(w: World, o: Overlay, a: Address, obj: StateObject)
    requires !obj.deleted && obj.account.balance == GetBalance(w, o, a)
    ensures Total(w, Insert(o, a, obj)) == Total(w, o)
  {
    hide Sum, Total;
    InsertTotal(w, o, a, obj);
  }

  /** An account marked for deletion that still holds something. */
  predicate Burns(o: Overlay, a: Address) {
    a in o.objects && o.objects[a].suicide && !o.objects[a].deleted && o.objects[a].account.balance > 0
  }

  lemma CleanBalance(w: World, o: Overlay, deleteEmpty: bool, a: Address)
    ensures a in o.objects <==> a in CleanDelete(o, deleteEmpty).objects
    ensures GetBalance(w, CleanDelete(o, deleteEmpty), a) == if Burns(o, a) then 0 else GetBalance(w, o, a)
    ensures Burns(o, a) ==> GetBalance(w, o, a) > 0
  {
  }

  /** What cleaning up burns is exactly what accounts marked for deletion still hold. */
  lemma CleanTotal(w: World, o: Overlay, deleteEmpty: bool)
    ensures Total(w, CleanDelete(o, deleteEmpty)) <= Total(w, o)
    ensures Total(w, CleanDelete(o, deleteEmpty)) == Total(w, o) <==> forall a :: !Burns(o, a)
  {
    hide Sum, GetBalance, CleanDelete, Burns;
    var m, n := BalanceMap(w, CleanDelete(o, deleteEmpty)), BalanceMap(w, o);
    forall a
      ensures a in m <==> a in n
      ensures a in m ==> m[a] <= n[a] && (m[a] == n[a] <==> !Burns(o, a))
      ensures Burns(o, a) ==> a in m
    {
      CleanBalance(w, o, deleteEmpty, a);
      BurnsIsThere(o, a);
    }
    SumPointwise(m, n);
    if forall a :: !Burns(o, a) {
      assert m == n;
    }
  }

  lemma BurnsIsThere(o: Overlay, a: Address)
    ensures Burns(o, a) ==> a in o.objects
  {
  }

  /** The interpreter's self-destruct: the balance goes to the beneficiary. */
  function Selfdestruct(w: World, o: Overlay, a: Address, beneficiary: Address): Overlay {
    var obj := Lookup(w, o, a);
    var o1 := if obj.Some? && obj.value.suicide then o else AddRefund(o, 24000);
    Suicide(w, AddBalance(w, o1, beneficiary, GetBalance(w, o1, a)), a)
  }

  /** Naming itself as beneficiary burns the balance; every other self-destruct conserves the total. */
  lemma SelfdestructTotal(w: World, o: Overlay, a: Address, beneficiary: Address)
    ensures Total(w, Selfdestruct(w, o, a, beneficiary)) == Total(w, o)
            <==> a != beneficiary || GetBalance(w, o, a) == 0
  {
    hide Sum, Total;
    var obj := Lookup(w, o, a);
    var o1 := if obj.Some? && obj.value.suicide then o else AddRefund(o, 24000);
    OthersTotal(w, o, o1);
    var amount := GetBalance(w, o, a);
    assert GetBalance(w, o1, a) == amount;
    var o2 := AddBalance(w, o1, beneficiary, amount);
    AddTotal(w, o1, beneficiary, amount);
    var there := Lookup(w, o2, a);
    if there.Some? {
      InsertTotal(w, o2, a, there.value.(suicide := true, account := there.value.account.(balance := 0)));
    }
  }

  /** An account of 5 that names itself: the 5 are gone. */
  lemma OwnBeneficiaryBurns()
    ensures var w: World := map[1 := Account(0, 5, map[], [])];
            Total(w, Selfdestruct(w, EMPTY, 1, 1)) != Total(w, EMPTY)
  {
    hide Total;
    SelfdestructTotal(map[1 := Account(0, 5, map[], [])], EMPTY, 1, 1);
  }
}
