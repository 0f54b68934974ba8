/**
 The ordered validator set and the rotation of proposers over it.
 */
module ValidatorSet {
  import opened Common

  const ZERO_ADDRESS: Address := 0

  /** Position of the first occurrence, or -1. */
  function IndexOf(vs: seq<Address>, addr: Address): (i: int)
    ensures -1 <= i < |vs|
    ensures i == -1 <==> addr !in vs
    ensures i >= 0 ==> vs[i] == addr && addr !in vs[..i]
  {
    if vs == [] then -1
    else if vs[0] == addr then 0
    else
      var k := IndexOf(vs[1..], addr);
      if k == -1 then -1
      else
        assert vs[..k + 1] == [vs[0]] + vs[1..][..k];
        k + 1
  }

  datatype Error = MismatchValidatorType | AlreadyExists | NotFound

  class Set {
    const validatorType: string
    var validators: seq<Address>

    ghost predicate Valid()
      reads this
    {
      Distinct(validators)
    }

    constructor (validatorType: string)
      ensures Valid() && validators == [] && this.validatorType == validatorType
    {
      this.validatorType := validatorType;
      validators := [];
    }

    method Index(addr: Address) returns (i: int)
      ensures i == IndexOf(validators, addr)
    {
      for k := 0 to |validators|
        invariant addr !in validators[..k]
      {
        if validators[k] == addr {
          return k;
        }
      }
      return -1;
    }

    /** Appends a new validator; a known one, or one of another type, is refused. */
    method Add(valType: string, addr: Address) returns (err: Option<Error>)
      requires Valid()
      modifies this`validators
      ensures Valid()
      ensures err == None <==> valType == validatorType && addr !in old(validators)
      ensures err == None ==> validators == old(validators) + [addr]
      ensures err != None ==> validators == old(validators)
      ensures err == Some(MismatchValidatorType) <==> valType != validatorType
    {
      if validatorType != valType {
        return Some(MismatchValidatorType);
      }
      var i := Index(addr);
      if i != -1 {
        return Some(AlreadyExists);
      }
      validators := validators + [addr];
      return None;
    }

    /** Removes a validator; afterwards it is gone and the others keep their order. */
    method Del(valType: string, addr: Address) returns (err: Option<Error>)
      requires Valid()
      modifies this`validators
      ensures Valid()
      ensures err == None <==> valType == validatorType && addr in old(validators)
      ensures err != None ==> validators == old(validators)
      ensures err == None ==>
                && addr !in validators
                && Elements(validators) == Elements(old(validators)) - {addr}
                && exists i :: 0 <= i < |old(validators)| && old(validators)[i] == addr
                               && validators == old(validators)[..i] + old(validators)[i + 1..]
    {
      if validatorType != valType {
        return Some(MismatchValidatorType);
      }
      var i := Index(addr);
      if i == -1 {
        return Some(NotFound);
      }
      ghost var was := validators;
      validators := validators[..i] + validators[i + 1..];
      assert was == was[..i] + [addr] + was[i + 1..];
      return None;
    }

    /** Union of the two sets, existing members first. */
    method Merge(other: Set) returns (err: Option<Error>)
      requires Valid()
      modifies this`validators
      ensures Valid()
      ensures err == None <==> validatorType == other.validatorType
      ensures err != None ==> validators == old(validators)
      ensures err == None ==> old(validators) <= validators
      ensures err == None ==> Elements(validators) == Elements(old(validators)) + Elements(old(other.validators))
    {
      if validatorType != other.validatorType {
        return Some(MismatchValidatorType);
      }
      if this == other {
        return None;
      }
      for k := 0 to |other.validators|
        invariant Valid() && old(validators) <= validators
        invariant other.validators == old(other.validators)
        invariant Elements(validators) == Elements(old(validators)) + Elements(other.validators[..k])
      {
        var addr := other.validators[k];
        assert Elements(other.validators[..k + 1]) == Elements(other.validators[..k]) + {addr};
        var i := Index(addr);
        if i == -1 {
          ghost var was := validators;
          var e := Add(other.validatorType, addr);
          assert Elements(validators) == Elements(was) + {addr};
        }
      }
      assert other.validators[..|other.validators|] == other.validators;
      return None;
    }
  }

  /** Position of the proposer of a round; the seed is an unsigned 64-bit sum. */
  function ProposerIndex(vs: seq<Address>, round: nat, lastProposer: Address): (i: nat)
    requires vs != []
    ensures i < |vs|
  {
    var seed :=
      if lastProposer == ZERO_ADDRESS then round
      else
        var offset := if lastProposer in vs then IndexOf(vs, lastProposer) else 0;
        (offset + round + 1) % U64;
    seed % |vs|
  }

  function CalcProposer(vs: seq<Address>, round: nat, lastProposer: Address): (p: Address)
    requires vs != []
    ensures p in vs
  {
    vs[ProposerIndex(vs, round, lastProposer)]
  }

  lemma MulSub(n: int, x: int, y: int)
    ensures n * x - n * y == n * (x - y)
  {
  }

  lemma NotAMultiple(n: nat, k: int, d: int)
    requires 0 < d < n
    ensures n * k != d
  {
    if k >= 1 {
      assert n * k == n + n * (k - 1);
    }
  }

  lemma ModShift(a: nat, d: nat, n: nat)
    requires 0 < d < n
    ensures (a + d) % n != a % n
  {
    var b := a + d;
    MulSub(n, b / n, a / n);
    NotAMultiple(n, b / n - a / n, d);
  }

  /** Where the round's turn starts counting from. */
  function RotationBase(vs: seq<Address>, lastProposer: Address): nat {
    if lastProposer == ZERO_ADDRESS then 0
    else (if lastProposer in vs then IndexOf(vs, lastProposer) else 0) + 1
  }

  lemma ProposerIndexAt(vs: seq<Address>, round: nat, lastProposer: Address)
    requires vs != [] && RotationBase(vs, lastProposer) + round < U64
    ensures ProposerIndex(vs, round, lastProposer) == (RotationBase(vs, lastProposer) + round) % |vs|
  {
  }

  /**
   Rotation: among any |vs| consecutive rounds no validator proposes twice, as
   long as the round counter stays clear of the 64-bit edge.
   */
  lemma ProposersRotate(vs: seq<Address>, lastProposer: Address, r1: nat, r2: nat)
    requires Distinct(vs) && r1 < r2 < r1 + |vs|
    requires r2 + |vs| < U64
    ensures CalcProposer(vs, r1, lastProposer) != CalcProposer(vs, r2, lastProposer)
  {
    var base := RotationBase(vs, lastProposer);
    ProposerIndexAt(vs, r1, lastProposer);
    ProposerIndexAt(vs, r2, lastProposer);
    assert base + r1 + (r2 - r1) == base + r2;
    ModShift(base + r1, r2 - r1, |vs|);
  }
}
