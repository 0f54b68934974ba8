/**
 Quorum sizes of the validator set, and the intersection facts that make a
 quorum size safe.
 */
module Quorum {
  import opened Common

  /** Largest number of faulty validators tolerated; Go's division truncates toward zero. */
  function MaxFaulty(n: nat): nat {
    if n == 0 then 0 else (n - 1) / 3
  }

  function LegacySize(n: nat): nat {
    2 * MaxFaulty(n) + 1
  }

  function OptimalSize(n: nat): nat {
    if MaxFaulty(n) == 0 then n else (2 * n + 2) / 3
  }

  /**
   Every two sets of at least `q` validators share a validator outside every
   set of at most `f` faulty ones.
   */
  ghost predicate Safe<T(!new)>(validators: set<T>, q: nat, f: nat) {
    forall a: set<T>, b: set<T>, faulty: set<T> ::
      a <= validators && b <= validators && q <= |a| && q <= |b| && |faulty| <= f
      ==> exists v :: v in a && v in b && v !in faulty
  }

  lemma CorrectInBoth<T>(validators: set<T>, a: set<T>, b: set<T>, faulty: set<T>) returns (v: T)
    requires a <= validators && b <= validators
    requires |a| + |b| > |validators| + |faulty|
    ensures v in a && v in b && v !in faulty
  {
    assert |a| + |b| == |a + b| + |a * b|;
    SubsetSize(a + b, validators);
    if a * b <= faulty {
      SubsetSize(a * b, faulty);
      assert false;
    }
    v :| v in a * b && v !in faulty;
  }

  /** Counting form of safety: a size is safe exactly when two quorums overlap in more than `f`. */
  lemma SafeIff<T(!new)>(validators: set<T>, q: nat, f: nat)
    requires q <= |validators|
    ensures Safe(validators, q, f) <==> 2 * q > |validators| + f
  {
    if 2 * q > |validators| + f {
      forall a: set<T>, b: set<T>, faulty: set<T> |
        a <= validators && b <= validators && q <= |a| && q <= |b| && |faulty| <= f
        ensures exists v :: v in a && v in b && v !in faulty
      {
        var v := CorrectInBoth(validators, a, b, faulty);
      }
    } else {
      var a, b, faulty := BadQuorums(validators, q, f);
      assert !exists v :: v in a && v in b && v !in faulty;
    }
  }

  /** Below the threshold two quorums can meet in faulty validators only. */
  lemma BadQuorums<T>(validators: set<T>, q: nat, f: nat) returns (a: set<T>, b: set<T>, faulty: set<T>)
    requires q <= |validators| && 2 * q <= |validators| + f
    ensures a <= validators && b <= validators && |a| == q && |b| == q
    ensures |faulty| <= f && a * b <= faulty
  {
    a := SubsetOfSize(validators, q);
    var rest := validators - a;
    assert |rest| == |validators| - q;
    if q <= |rest| {
      b := SubsetOfSize(rest, q);
      faulty := {};
    } else {
      faulty := SubsetOfSize(a, q - |rest|);
      b := rest + faulty;
    }
  }

  /** The optimal size is always safe, and correct validators alone can reach it. */
  lemma OptimalIsSafe<T(!new)>(validators: set<T>)
    requires |validators| >= 1
    ensures Safe(validators, OptimalSize(|validators|), MaxFaulty(|validators|))
    ensures OptimalSize(|validators|) <= |validators| - MaxFaulty(|validators|)
  {
    SafeIff(validators, OptimalSize(|validators|), MaxFaulty(|validators|));
  }

  /** It is also the least safe size, except for three validators, where two would do. */
  lemma OptimalIsLeast(n: nat)
    requires n >= 1
    ensures (forall q: nat :: 2 * q > n + MaxFaulty(n) ==> OptimalSize(n) <= q) <==> n != 3
  {
    if n == 3 {
      var q := 2;
      assert 2 * q > n + MaxFaulty(n) && OptimalSize(n) > q;
    }
  }

  /** The legacy size is safe exactly for sets of 3F + 1 validators. */
  lemma LegacyIsSafeIff<T(!new)>(validators: set<T>)
    requires |validators| >= 1
    ensures Safe(validators, LegacySize(|validators|), MaxFaulty(|validators|)) <==> |validators| % 3 == 1
  {
    SafeIff(validators, LegacySize(|validators|), MaxFaulty(|validators|));
  }
}
