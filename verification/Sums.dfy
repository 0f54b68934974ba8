/** Sums of natural numbers kept per address. */
module Sums {
  import opened Common

  ghost function Sum(m: map<Address, nat>): nat
    decreases |m|
  {
    if m == map[] then 0
    else
      var a :| a in m;
      m[a] + Sum(m - {a})
  }

  /** The sum does not depend on the order of summation. */
  lemma {:induction false} SumTakeOut(m: map<Address, nat>, a: Address)
    requires a in m
    ensures Sum(m) == m[a] + Sum(m - {a})
    decreases |m|
  {
    var x :| x in m && Sum(m) == m[x] + Sum(m - {x});
    if x != a {
      SumTakeOut(m - {x}, a);
      SumTakeOut(m - {a}, x);
      assert m - {x} - {a} == m - {a} - {x};
    }
  }

  lemma SumEmpty(m: map<Address, nat>)
    requires m == map[]
    ensures Sum(m) == 0
  {
  }

  lemma SumUpdate(m: map<Address, nat>, a: Address, v: nat)
    ensures Sum(m[a := v]) == Sum(m) + v - (if a in m then m[a] else 0)
  {
    hide Sum;
    SumTakeOut(m[a := v], a);
    if a in m {
      SumTakeOut(m, a);
      assert m[a := v] - {a} == m - {a};
    } else {
      assert m[a := v] - {a} == m;
    }
  }

  /** A pointwise smaller map has a smaller sum, and the same sum only if it is the same map. */
  lemma {:induction false} SumPointwise(m: map<Address, nat>, n: map<Address, nat>)
    requires m.Keys == n.Keys && forall a | a in m :: m[a] <= n[a]
    ensures Sum(m) <= Sum(n)
    ensures Sum(m) == Sum(n) <==> m == n
    decreases |m|
  {
    hide Sum;
    if m != map[] {
      var a :| a in m;
      SumTakeOut(m, a);
      SumTakeOut(n, a);
      SumPointwise(m - {a}, n - {a});
      if m[a] == n[a] && m - {a} == n - {a} {
        assert m == (m - {a})[a := m[a]] && n == (n - {a})[a := n[a]];
      }
    } else {
      assert n == map[];
      SumEmpty(m);
      SumEmpty(n);
    }
  }
}
