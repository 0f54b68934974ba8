/** Small definitions shared by every module. */
module Common {

  datatype Option<+T> = None | Some(value: T)

  type Address = nat

  /** Number of values of an unsigned 64-bit integer; counters wrap modulo this. */
  const U64: nat := 0x1_0000_0000_0000_0000

  /** An unsigned 64-bit integer. */
  type Word = x: int | 0 <= x < U64

  type Byte = x: int | 0 <= x < 256
  type Bytes = seq<Byte>

  /** No element occurs twice. */
  ghost predicate Distinct<T>(s: seq<T>) {
    forall i, j :: 0 <= i < j < |s| ==> s[i] != s[j]
  }

  function Elements<T>(s: seq<T>): set<T> {
    set x | x in s
  }

  /** A sequence without repetitions has as many elements as positions. */
  lemma {:induction false} DistinctSize<T>(s: seq<T>)
    requires Distinct(s)
    ensures |Elements(s)| == |s|
  {
    if s != [] {
      var n := |s| - 1;
      var front := s[..n];
      DistinctSize(front);
      assert Elements(s) == Elements(front) + {s[n]};
      assert s[n] !in front;
    }
  }

  lemma SubsetSize<T>(a: set<T>, b: set<T>)
    requires a <= b
    ensures |a| <= |b|
  {
    assert b == a + (b - a);
  }

  /** A set has subsets of every size up to its own. */
  lemma {:induction false} SubsetOfSize<T>(s: set<T>, k: nat) returns (r: set<T>)
    requires k <= |s|
    ensures r <= s && |r| == k
  {
    if k == 0 {
      r := {};
    } else {
      var x :| x in s;
      var q := SubsetOfSize(s - {x}, k - 1);
      r := q + {x};
    }
  }
}
